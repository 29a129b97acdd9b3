/** `ExpenseHandler`: how a request (method, target, body) becomes a status,
    a payload and a new database. Headers, sockets and JSON text are outside
    the model: the body arrives already decoded into the keys the handlers
    read, or as a decoding failure. */
module Router {
  import opened Base
  import opened Store
  import opened Views
  import Text

  /** The range of the SQLite INTEGER a bound Python int must fit; outside it
      the `sqlite3` module raises OverflowError. */
  const MinInt64: int := -0x8000_0000_0000_0000

  predicate InInt64(k: int)
  {
    MinInt64 <= k <= MaxRowId
  }

  /** The keys of the decoded JSON object that the handlers look up; a key
      that is absent is `None`. */
  datatype Fields = Fields(
    date: Option<string>,
    category: Option<string>,
    description: Option<string>,
    amount: Option<real>,
    salary: Option<real>)

  /** The body as `_get_body` sees it: no Content-Length (read as `{}`),
      text `json.loads` rejects, or a decoded object. */
  datatype Body = NoBody | Malformed | Json(fields: Fields)

  /** `verb` is the request-line method as sent; the handler class answers
      only the verbs it has a `do_` method for. */
  datatype Request = Request(verb: string, target: string, body: Body)

  datatype Failure =
    | NotFound
    | BadJson
    | MissingKey(key: string)
    | BadId
    | IdOutOfRange
    | TableFull
    | Unsupported

  datatype Payload =
    | NoContent
    | LandingPage
    | PageMissing
    | ExpenseList(expenses: seq<Expense>)
    | SalaryJson(view: SalaryView)
    | GroupList(groups: seq<Group>)
    | CsvFile(records: seq<seq<Cell>>)
    | Created(id: int)
    | Done
    | Error(failure: Failure)

  datatype Response = Response(status: int, payload: Payload)

  datatype Outcome = Outcome(response: Response, db: Db)

  const ExpensesPath := "/api/expenses"
  const ExpensePrefix := "/api/expenses/"
  const SalaryPath := "/api/salary"
  const CategoryPath := "/api/summary/category"
  const MonthlyPath := "/api/summary/monthly"
  const CategoryAnimatedPath := "/api/summary/category/animated"
  const MonthlyAnimatedPath := "/api/summary/monthly/animated"
  const CsvPath := "/api/export/csv"

  /** The paths `do_GET` answers with 200 (and `/`, with 200 or 404). */
  const GetRoutes: set<string> :=
    {"/", ExpensesPath, SalaryPath, CategoryPath, MonthlyPath, CategoryAnimatedPath, MonthlyAnimatedPath, CsvPath}

  // ---------------------------------------------------------------------------
  // Reading the body
  // ---------------------------------------------------------------------------

  /** `_get_body`: an absent body is the empty object; undecodable JSON raises. */
  function ReadBody(b: Body): (r: Option<Fields>)
    ensures r.None? <==> b.Malformed?
    ensures b.NoBody? ==> r == Some(Fields(None, None, None, None, None))
  {
    match b
    case NoBody => Some(Fields(None, None, None, None, None))
    case Malformed => None
    case Json(f) => Some(f)
  }

  /** The values bound to an INSERT or UPDATE of an expense. */
  datatype Columns = Columns(date: string, category: string, description: string, amount: real)

  /** The parameter tuple `(data['date'], data['category'],
      data.get('description', ''), data['amount'])`, evaluated left to right:
      the first absent required key raises KeyError. */
  function ReadColumns(f: Fields): (r: Result<Columns, Failure>)
    ensures r.Ok? <==> f.date.Some? && f.category.Some? && f.amount.Some?
    ensures r.Ok? ==> r.value.date == f.date.value && r.value.category == f.category.value && r.value.amount == f.amount.value
    ensures r.Ok? ==> r.value.description == (if f.description.Some? then f.description.value else "")
    ensures f.date.None? ==> r == Err(MissingKey("date"))
    ensures f.date.Some? && f.category.None? ==> r == Err(MissingKey("category"))
    ensures f.date.Some? && f.category.Some? && f.amount.None? ==> r == Err(MissingKey("amount"))
  {
    match f.date
    case None => Err(MissingKey("date"))
    case Some(date) =>
      match f.category
      case None => Err(MissingKey("category"))
      case Some(category) =>
        var description := f.description.GetOr("");
        match f.amount
        case None => Err(MissingKey("amount"))
        case Some(amount) => Ok(Columns(date, category, description, amount))
  }

  /** The id `int(self.path.split('/')[-1])` reads from a target. */
  function TargetId(target: string): Option<int>
  {
    Text.ParseInt(Text.LastSegment(target))
  }

  // ---------------------------------------------------------------------------
  // Handlers
  // ---------------------------------------------------------------------------

  /** What `do_GET` serves. */
  datatype GetRoute =
    | Landing
    | ListRoute
    | SalaryRoute
    | CategoryRoute
    | MonthlyRoute
    | CategoryAnimatedRoute
    | MonthlyAnimatedRoute
    | CsvRoute
    | NoRoute

  /** The chain of path comparisons at the top of `do_GET`. */
  function RouteOf(path: string): (r: GetRoute)
    ensures r.NoRoute? <==> path !in GetRoutes
    ensures r.Landing? <==> path == "/"
  {
    if path == "/" then Landing
    else if path == ExpensesPath then ListRoute
    else if path == SalaryPath then SalaryRoute
    else if path == CategoryPath then CategoryRoute
    else if path == MonthlyPath then MonthlyRoute
    else if path == CategoryAnimatedPath then CategoryAnimatedRoute
    else if path == MonthlyAnimatedPath then MonthlyAnimatedRoute
    else if path == CsvPath then CsvRoute
    else NoRoute
  }

  /** The response `do_GET` gives once the route is known. */
  function Serve(route: GetRoute, db: Db, indexExists: bool): (r: Response)
    ensures r.status == 200 || r.status == 404
    ensures r.status == 404 <==> route.NoRoute? || (route.Landing? && !indexExists)
  {
    var rows := db.expenses;
    match route
    case Landing => if indexExists then Response(200, LandingPage) else Response(404, PageMissing)
    case ListRoute => Response(200, ExpenseList(ListExpenses(rows)))
    case SalaryRoute => Response(200, SalaryJson(SalaryReport(db)))
    case CategoryRoute => Response(200, GroupList(CategorySummary(rows)))
    case MonthlyRoute => Response(200, GroupList(MonthlySummary(rows)))
    case CategoryAnimatedRoute => Response(200, GroupList(TopCategories(rows)))
    case MonthlyAnimatedRoute => Response(200, GroupList(MonthlySummary(rows)))
    case CsvRoute => Response(200, CsvFile(ExportCsv(rows)))
    case NoRoute => Response(404, Error(NotFound))
  }

  /** `do_GET`, routed on the `urlparse` path; `indexExists` says whether
      `index.html` is in the working directory. */
  function HandleGet(target: string, db: Db, indexExists: bool): (r: Response)
    ensures r.status == 200 || r.status == 404
    ensures r.status == 404 <==> Text.UrlPath(target) !in GetRoutes || (Text.UrlPath(target) == "/" && !indexExists)
  {
    Serve(RouteOf(Text.UrlPath(target)), db, indexExists)
  }

  function Fail(status: int, failure: Failure, db: Db): Outcome
  {
    Outcome(Response(status, Error(failure)), db)
  }

  /** `do_POST`, routed on the raw target: create an expense, or set the salary. */
  function HandlePost(target: string, body: Body, db: Db): (r: Outcome)
    ensures r.response.status in {201, 200, 400, 404}
    ensures r.response.status != 201 && r.response.status != 200 ==> r.db == db
    ensures r.response.status == 201 <==>
      target == ExpensesPath && ReadBody(body).Some? && ReadColumns(ReadBody(body).value).Ok? && db.expenseSeq < MaxRowId
    ensures r.response.status == 404 <==> target != ExpensesPath && target != SalaryPath
    ensures r.response.status == 200 <==> target == SalaryPath && ReadBody(body).Some? && ReadBody(body).value.salary.Some?
    ensures r.response.status == 200 ==> r.db == SetSalary(db, ReadBody(body).value.salary.value)
    ensures r.response.status == 201 ==>
      var c := ReadColumns(ReadBody(body).value).value;
      var ins := InsertExpense(db, c.date, c.category, c.description, c.amount);
      ins.Some? && r.response.payload == Created(ins.value.id) && r.db == ins.value.db
    ensures Valid(db) ==> Valid(r.db)
  {
    if target == ExpensesPath then
      match ReadBody(body)
      case None => Fail(400, BadJson, db)
      case Some(f) =>
        match ReadColumns(f)
        case Err(e) => Fail(400, e, db)
        case Ok(c) =>
          match InsertExpense(db, c.date, c.category, c.description, c.amount)
          case None => Fail(400, TableFull, db)
          case Some(ins) =>
            assert Valid(db) ==> Valid(ins.db) by { if Valid(db) { InsertFresh(db, c.date, c.category, c.description, c.amount); } }
            Outcome(Response(201, Created(ins.id)), ins.db)
    else if target == SalaryPath then
      match ReadBody(body)
      case None => Fail(400, BadJson, db)
      case Some(f) =>
        match f.salary
        case None => Fail(400, MissingKey("salary"), db)
        case Some(v) =>
          SalaryAfterSet(db, v);
          Outcome(Response(200, Done), SetSalary(db, v))
    else Fail(404, NotFound, db)
  }

  /** `do_PUT`: any target under `/api/expenses/`; the id is the last path
      segment and is parsed before the body is read. */
  function HandlePut(target: string, body: Body, db: Db): (r: Outcome)
    ensures r.response.status in {200, 400, 404}
    ensures r.response.status != 200 ==> r.db == db
    ensures r.response.status == 404 <==> !(ExpensePrefix <= target)
    ensures ExpensePrefix <= target && TargetId(target).None? ==> r.response == Response(400, Error(BadId))
    ensures r.response.status == 200 <==>
      && ExpensePrefix <= target
      && TargetId(target).Some? && InInt64(TargetId(target).value)
      && ReadBody(body).Some? && ReadColumns(ReadBody(body).value).Ok?
    ensures r.response.status == 200 ==>
      var c := ReadColumns(ReadBody(body).value).value;
      r.db == UpdateExpense(db, TargetId(target).value, c.date, c.category, c.description, c.amount)
    ensures Valid(db) ==> Valid(r.db)
  {
    if ExpensePrefix <= target then
      match TargetId(target)
      case None => Fail(400, BadId, db)
      case Some(k) =>
        match ReadBody(body)
        case None => Fail(400, BadJson, db)
        case Some(f) =>
          match ReadColumns(f)
          case Err(e) => Fail(400, e, db)
          case Ok(c) =>
            if !InInt64(k) then Fail(400, IdOutOfRange, db)
            else
              assert Valid(db) ==> Valid(UpdateExpense(db, k, c.date, c.category, c.description, c.amount)) by { if Valid(db) { UpdateValid(db, k, c.date, c.category, c.description, c.amount); } }
              Outcome(Response(200, Done), UpdateExpense(db, k, c.date, c.category, c.description, c.amount))
    else Fail(404, NotFound, db)
  }

  /** `do_DELETE`: any target under `/api/expenses/`; reports success whether
      or not the id existed. */
  function HandleDelete(target: string, db: Db): (r: Outcome)
    ensures r.response.status in {200, 400, 404}
    ensures r.response.status != 200 ==> r.db == db
    ensures r.response.status == 404 <==> !(ExpensePrefix <= target)
    ensures r.response.status == 200 <==> ExpensePrefix <= target && TargetId(target).Some? && InInt64(TargetId(target).value)
    ensures r.response.status == 200 ==> r.response.payload == Done && r.db == DeleteExpense(db, TargetId(target).value)
    ensures Valid(db) ==> Valid(r.db)
  {
    if ExpensePrefix <= target then
      match TargetId(target)
      case None => Fail(400, BadId, db)
      case Some(k) =>
        if !InInt64(k) then Fail(400, IdOutOfRange, db)
        else
          assert Valid(db) ==> Valid(DeleteExpense(db, k)) by { if Valid(db) { DeleteValid(db, k); } }
          Outcome(Response(200, Done), DeleteExpense(db, k))
    else Fail(404, NotFound, db)
  }

  /** One request, start to finish. Verbs without a `do_` method get 501 from
      `BaseHTTPRequestHandler`. Only a successful POST, PUT or DELETE writes;
      every failure leaves the database as it was; the database stays well
      formed. */
  function Dispatch(req: Request, db: Db, indexExists: bool): (r: Outcome)
    ensures r.response.status in {200, 201, 204, 400, 404, 501}
    ensures r.response.status != 200 && r.response.status != 201 ==> r.db == db
    ensures req.verb != "POST" && req.verb != "PUT" && req.verb != "DELETE" ==> r.db == db
    ensures req.verb == "OPTIONS" <==> r.response.status == 204
    ensures Valid(db) ==> Valid(r.db)
  {
    match req.verb
    case "GET" => Outcome(HandleGet(req.target, db, indexExists), db)
    case "POST" => HandlePost(req.target, req.body, db)
    case "PUT" => HandlePut(req.target, req.body, db)
    case "DELETE" => HandleDelete(req.target, db)
    case "OPTIONS" => Outcome(Response(204, NoContent), db)
    case _ => Fail(501, Unsupported, db)
  }

  // ---------------------------------------------------------------------------
  // Request-level properties
  // ---------------------------------------------------------------------------

  /** Each verb reaches its own handler. */
  lemma DispatchGet(db: Db, target: string, body: Body, indexExists: bool)
    ensures Dispatch(Request("GET", target, body), db, indexExists) == Outcome(HandleGet(target, db, indexExists), db)
  {
  }

  lemma DispatchPost(db: Db, target: string, body: Body, indexExists: bool)
    ensures Dispatch(Request("POST", target, body), db, indexExists) == HandlePost(target, body, db)
  {
  }

  lemma DispatchPut(db: Db, target: string, body: Body, indexExists: bool)
    ensures Dispatch(Request("PUT", target, body), db, indexExists) == HandlePut(target, body, db)
  {
  }

  lemma DispatchDelete(db: Db, target: string, body: Body, indexExists: bool)
    ensures Dispatch(Request("DELETE", target, body), db, indexExists) == HandleDelete(target, db)
  {
  }

  // Each fixed path is its own `urlparse` path, and it selects its route.

  /** A target whose path selects a route is answered by that route. */
  lemma Routed(target: string, route: GetRoute, db: Db, indexExists: bool)
    requires RouteOf(Text.UrlPath(target)) == route
    ensures HandleGet(target, db, indexExists) == Serve(route, db, indexExists)
  {
  }

  // For each served path: it is its own `urlparse` path, it selects its
  // route, and the route serves its view. These one-step lemmas keep each
  // proof about a GET endpoint small enough for the solver.

  lemma ExpensesPathPlain()
    ensures Text.UrlPath(ExpensesPath) == ExpensesPath
  {
    Text.UrlPathPlain(ExpensesPath);
  }

  lemma ExpensesPathRoute()
    ensures RouteOf(ExpensesPath) == ListRoute
  {
  }

  lemma ServeListRoute(db: Db, indexExists: bool)
    ensures Serve(ListRoute, db, indexExists) == Response(200, ExpenseList(ListExpenses(db.expenses)))
  {
  }

  lemma SalaryPathPlain()
    ensures Text.UrlPath(SalaryPath) == SalaryPath
  {
    Text.UrlPathPlain(SalaryPath);
  }

  lemma SalaryPathRoute()
    ensures RouteOf(SalaryPath) == SalaryRoute
  {
  }

  lemma ServeSalaryRoute(db: Db, indexExists: bool)
    ensures Serve(SalaryRoute, db, indexExists) == Response(200, SalaryJson(SalaryReport(db)))
  {
  }

  lemma CategoryPathPlain()
    ensures Text.UrlPath(CategoryPath) == CategoryPath
  {
    Text.UrlPathPlain(CategoryPath);
  }

  lemma CategoryPathRoute()
    ensures RouteOf(CategoryPath) == CategoryRoute
  {
  }

  lemma ServeCategoryRoute(db: Db, indexExists: bool)
    ensures Serve(CategoryRoute, db, indexExists) == Response(200, GroupList(CategorySummary(db.expenses)))
  {
  }

  lemma MonthlyPathPlain()
    ensures Text.UrlPath(MonthlyPath) == MonthlyPath
  {
    Text.UrlPathPlain(MonthlyPath);
  }

  lemma MonthlyPathRoute()
    ensures RouteOf(MonthlyPath) == MonthlyRoute
  {
  }

  lemma ServeMonthlyRoute(db: Db, indexExists: bool)
    ensures Serve(MonthlyRoute, db, indexExists) == Response(200, GroupList(MonthlySummary(db.expenses)))
  {
  }

  lemma CategoryAnimatedPathPlain()
    ensures Text.UrlPath(CategoryAnimatedPath) == CategoryAnimatedPath
  {
    Text.UrlPathPlain(CategoryAnimatedPath);
  }

  lemma CategoryAnimatedPathRoute()
    ensures RouteOf(CategoryAnimatedPath) == CategoryAnimatedRoute
  {
  }

  lemma ServeCategoryAnimatedRoute(db: Db, indexExists: bool)
    ensures Serve(CategoryAnimatedRoute, db, indexExists) == Response(200, GroupList(TopCategories(db.expenses)))
  {
  }

  lemma MonthlyAnimatedPathPlain()
    ensures Text.UrlPath(MonthlyAnimatedPath) == MonthlyAnimatedPath
  {
    Text.UrlPathPlain(MonthlyAnimatedPath);
  }

  lemma MonthlyAnimatedPathRoute()
    ensures RouteOf(MonthlyAnimatedPath) == MonthlyAnimatedRoute
  {
  }

  lemma ServeMonthlyAnimatedRoute(db: Db, indexExists: bool)
    ensures Serve(MonthlyAnimatedRoute, db, indexExists) == Response(200, GroupList(MonthlySummary(db.expenses)))
  {
  }

  lemma CsvPathPlain()
    ensures Text.UrlPath(CsvPath) == CsvPath
  {
    Text.UrlPathPlain(CsvPath);
  }

  lemma CsvPathRoute()
    ensures RouteOf(CsvPath) == CsvRoute
  {
  }

  lemma ServeCsvRoute(db: Db, indexExists: bool)
    ensures Serve(CsvRoute, db, indexExists) == Response(200, CsvFile(ExportCsv(db.expenses)))
  {
  }

  /** GET `/api/expenses` answers with the listing. */
  lemma GetList(db: Db, indexExists: bool)
    ensures HandleGet(ExpensesPath, db, indexExists) == Response(200, ExpenseList(ListExpenses(db.expenses)))
  {
    ExpensesPathPlain();
    ExpensesPathRoute();
    Routed(ExpensesPath, ListRoute, db, indexExists);
    ServeListRoute(db, indexExists);
  }

  /** GET `/api/salary` answers with the salary report. */
  lemma GetSalary(db: Db, indexExists: bool)
    ensures HandleGet(SalaryPath, db, indexExists) == Response(200, SalaryJson(SalaryReport(db)))
  {
    SalaryPathPlain();
    SalaryPathRoute();
    Routed(SalaryPath, SalaryRoute, db, indexExists);
    ServeSalaryRoute(db, indexExists);
  }

  /** GET `/api/summary/category` answers with the category summary. */
  lemma GetCategory(db: Db, indexExists: bool)
    ensures HandleGet(CategoryPath, db, indexExists) == Response(200, GroupList(CategorySummary(db.expenses)))
  {
    CategoryPathPlain();
    CategoryPathRoute();
    Routed(CategoryPath, CategoryRoute, db, indexExists);
    ServeCategoryRoute(db, indexExists);
  }

  /** GET `/api/summary/monthly` answers with the monthly summary. */
  lemma GetMonthly(db: Db, indexExists: bool)
    ensures HandleGet(MonthlyPath, db, indexExists) == Response(200, GroupList(MonthlySummary(db.expenses)))
  {
    MonthlyPathPlain();
    MonthlyPathRoute();
    Routed(MonthlyPath, MonthlyRoute, db, indexExists);
    ServeMonthlyRoute(db, indexExists);
  }

  /** GET `/api/summary/category/animated` answers with the five largest categories. */
  lemma GetTopCategories(db: Db, indexExists: bool)
    ensures HandleGet(CategoryAnimatedPath, db, indexExists) == Response(200, GroupList(TopCategories(db.expenses)))
  {
    CategoryAnimatedPathPlain();
    CategoryAnimatedPathRoute();
    Routed(CategoryAnimatedPath, CategoryAnimatedRoute, db, indexExists);
    ServeCategoryAnimatedRoute(db, indexExists);
  }

  /** GET `/api/summary/monthly/animated` answers with the monthly summary. */
  lemma GetMonthlyAnimated(db: Db, indexExists: bool)
    ensures HandleGet(MonthlyAnimatedPath, db, indexExists) == Response(200, GroupList(MonthlySummary(db.expenses)))
  {
    MonthlyAnimatedPathPlain();
    MonthlyAnimatedPathRoute();
    Routed(MonthlyAnimatedPath, MonthlyAnimatedRoute, db, indexExists);
    ServeMonthlyAnimatedRoute(db, indexExists);
  }

  /** GET `/api/export/csv` answers with the export. */
  lemma GetCsv(db: Db, indexExists: bool)
    ensures HandleGet(CsvPath, db, indexExists) == Response(200, CsvFile(ExportCsv(db.expenses)))
  {
    CsvPathPlain();
    CsvPathRoute();
    Routed(CsvPath, CsvRoute, db, indexExists);
    ServeCsvRoute(db, indexExists);
  }

  /** POST /api/expenses with date, category and amount answers 201 with a
      fresh id and appends exactly one record, keeping every other record
      and the settings; the listing then holds the new record, its
      description defaulting to the empty string. */
  lemma CreateThenList(db: Db, f: Fields, indexExists: bool)
    requires Valid(db) && db.expenseSeq < MaxRowId
    requires f.date.Some? && f.category.Some? && f.amount.Some?
    ensures var o := Dispatch(Request("POST", ExpensesPath, Json(f)), db, indexExists);
      && o.response.status == 201
      && o.response.payload.Created?
      && (forall i :: 0 <= i < |db.expenses| ==> db.expenses[i].id < o.response.payload.id)
      && o.db.settings == db.settings
      && var e := Expense(o.response.payload.id, f.date.value, f.category.value, f.description.GetOr(""), f.amount.value);
         && o.db.expenses == db.expenses + [e]
         && var listing := Dispatch(Request("GET", ExpensesPath, NoBody), o.db, indexExists).response;
            listing.status == 200 && listing.payload.ExpenseList? && e in listing.payload.expenses
  {
    DispatchPost(db, ExpensesPath, Json(f), indexExists);
    var c := ReadColumns(f).value;
    var ins := InsertExpense(db, c.date, c.category, c.description, c.amount).value;
    InsertFresh(db, c.date, c.category, c.description, c.amount);
    var e := Expense(ins.id, c.date, c.category, c.description, c.amount);
    assert ins.db.expenses[|db.expenses|] == e;
    assert e in ins.db.expenses;
    DispatchGet(ins.db, ExpensesPath, NoBody, indexExists);
    GetList(ins.db, indexExists);
    assert e in multiset(ListExpenses(ins.db.expenses));
  }

  /** A create whose body is undecodable or lacks date, category or amount is
      refused with 400 and writes nothing. */
  lemma CreateRejected(db: Db, body: Body, indexExists: bool)
    requires body.Malformed? || body.NoBody? ||
      (body.Json? && (body.fields.date.None? || body.fields.category.None? || body.fields.amount.None?))
    ensures var o := Dispatch(Request("POST", ExpensesPath, body), db, indexExists);
      o.response.status == 400 && o.db == db
  {
    DispatchPost(db, ExpensesPath, body, indexExists);
  }

  /** The target `dir/k` of an expense route reads back as id k. */
  lemma IdTarget(dir: string, k: int)
    requires ExpensePrefix <= dir + "/"
    ensures ExpensePrefix <= dir + "/" + Text.DecimalString(k)
    ensures TargetId(dir + "/" + Text.DecimalString(k)) == Some(k)
  {
    var target := dir + "/" + Text.DecimalString(k);
    assert (dir + "/") <= target;
    Text.LastSegmentAfterSlash(dir, Text.DecimalString(k));
    Text.ParseDecimalString(k);
  }

  /** A complete PUT on `dir/k` answers 200 and applies the update to id k. */
  lemma PutWrites(db: Db, dir: string, k: int, f: Fields)
    requires ExpensePrefix <= dir + "/"
    requires InInt64(k)
    requires f.date.Some? && f.category.Some? && f.amount.Some?
    ensures var c := ReadColumns(f).value;
      HandlePut(dir + "/" + Text.DecimalString(k), Json(f), db) ==
      Outcome(Response(200, Done), UpdateExpense(db, k, c.date, c.category, c.description, c.amount))
  {
    IdTarget(dir, k);
  }

  /** PUT /api/expenses/<k> rewrites record k only; on an id no row has, it
      still answers 200 and changes nothing. Any directory under
      /api/expenses/ works: only the last segment is read. */
  lemma UpdateById(db: Db, dir: string, k: int, f: Fields, indexExists: bool)
    requires ExpensePrefix <= dir + "/"
    requires InInt64(k)
    requires f.date.Some? && f.category.Some? && f.amount.Some?
    ensures var o := Dispatch(Request("PUT", dir + "/" + Text.DecimalString(k), Json(f)), db, indexExists);
      && o.response.status == 200
      && (forall j :: j != k ==> Lookup(o.db.expenses, j) == Lookup(db.expenses, j))
      && (HasExpense(db.expenses, k) ==>
            Lookup(o.db.expenses, k) == Some(Expense(k, f.date.value, f.category.value, f.description.GetOr(""), f.amount.value)))
      && (!HasExpense(db.expenses, k) ==> o.db == db)
      && o.db.settings == db.settings
  {
    var target := dir + "/" + Text.DecimalString(k);
    DispatchPut(db, target, Json(f), indexExists);
    var c := ReadColumns(f).value;
    var db' := UpdateExpense(db, k, c.date, c.category, c.description, c.amount);
    PutWrites(db, dir, k, f);
    forall j
      ensures Lookup(db'.expenses, j) ==
        if j != k then Lookup(db.expenses, j)
        else if HasExpense(db.expenses, k) then Some(Expense(k, c.date, c.category, c.description, c.amount))
        else None
    {
      LookupAfterUpdate(db.expenses, k, c.date, c.category, c.description, c.amount, j);
    }
    if !HasExpense(db.expenses, k) {
      UpdateMissingIsNoop(db, k, c.date, c.category, c.description, c.amount);
    }
  }

  /** An update whose body is undecodable or lacks date, category or amount
      is refused with 400 and writes nothing, whatever the id. */
  lemma UpdateRejected(db: Db, target: string, body: Body, indexExists: bool)
    requires ExpensePrefix <= target
    requires body.Malformed? || body.NoBody? ||
      (body.Json? && (body.fields.date.None? || body.fields.category.None? || body.fields.amount.None?))
    ensures var o := Dispatch(Request("PUT", target, body), db, indexExists);
      o.response.status == 400 && o.db == db
  {
    DispatchPut(db, target, body, indexExists);
  }

  /** A PUT whose last segment is not an integer is refused before the body
      is looked at. */
  lemma UpdateBadId(db: Db, target: string, body: Body, indexExists: bool)
    requires ExpensePrefix <= target
    requires !Text.IsIntLiteral(Text.LastSegment(target))
    ensures Dispatch(Request("PUT", target, body), db, indexExists) == Outcome(Response(400, Error(BadId)), db)
  {
    DispatchPut(db, target, body, indexExists);
  }

  /** A DELETE on `dir/k` answers 200 and deletes id k. */
  lemma DeleteWrites(db: Db, dir: string, k: int)
    requires ExpensePrefix <= dir + "/"
    requires InInt64(k)
    ensures HandleDelete(dir + "/" + Text.DecimalString(k), db) == Outcome(Response(200, Done), DeleteExpense(db, k))
  {
    IdTarget(dir, k);
  }

  /** `int()` reads leading zeros: the id of `/api/expenses/007` is 7. */
  lemma LeadingZerosId()
    ensures TargetId("/api/expenses/007") == Some(7)
  {
    assert "/api/expenses/007" == "/api/expenses" + "/" + "007";
    Text.LastSegmentAfterSlash("/api/expenses", "007");
    Text.ParseLeadingZeros();
  }

  /** So DELETE on `/api/expenses/007` removes record 7. */
  lemma DeleteLeadingZeros(db: Db)
    ensures HandleDelete("/api/expenses/007", db) == Outcome(Response(200, Done), DeleteExpense(db, 7))
  {
    LeadingZerosId();
    assert ExpensePrefix <= "/api/expenses/007";
  }

  /** DELETE /api/expenses/<k> removes record k and keeps every other; it
      answers 200 whether or not k existed. */
  lemma DeleteById(db: Db, dir: string, k: int, indexExists: bool)
    requires ExpensePrefix <= dir + "/"
    requires InInt64(k)
    ensures var o := Dispatch(Request("DELETE", dir + "/" + Text.DecimalString(k), NoBody), db, indexExists);
      && o.response.status == 200
      && Lookup(o.db.expenses, k) == None
      && (forall j :: j != k ==> Lookup(o.db.expenses, j) == Lookup(db.expenses, j))
      && (!HasExpense(db.expenses, k) ==> o.db == db)
      && o.db.settings == db.settings
  {
    var target := dir + "/" + Text.DecimalString(k);
    DispatchDelete(db, target, NoBody, indexExists);
    DeleteWrites(db, dir, k);
    forall j
      ensures Lookup(DeleteRows(db.expenses, k), j) == if j == k then None else Lookup(db.expenses, j)
    {
      LookupAfterDelete(db.expenses, k, j);
    }
    if !HasExpense(db.expenses, k) {
      DeleteMissingIsNoop(db.expenses, k);
    }
  }

  /** POST /api/salary then GET /api/salary: any body carrying `salary`
      answers 200, the other keys are ignored, and the report carries the
      new salary with `remaining` that salary less the total spent. Without
      a settings row with id 1 the write changes nothing. */
  lemma SalaryRoundTrip(db: Db, f: Fields, indexExists: bool)
    requires f.salary.Some?
    ensures var o := Dispatch(Request("POST", SalaryPath, Json(f)), db, indexExists);
      && o.response.status == 200
      && o.db.expenses == db.expenses
      && (NoSalaryRowBefore(db.settings, |db.settings|) ==> o.db == db)
      && var report := Dispatch(Request("GET", SalaryPath, NoBody), o.db, indexExists).response;
         && report.status == 200
         && report.payload.SalaryJson?
         && ((exists i :: 0 <= i < |db.settings| && db.settings[i].id == 1) ==> report.payload.view.salary == f.salary.value)
         && report.payload.view.remaining == report.payload.view.salary - Sum(db.expenses)
  {
    var v := f.salary.value;
    DispatchPost(db, SalaryPath, Json(f), indexExists);
    assert HandlePost(SalaryPath, Json(f), db) == Outcome(Response(200, Done), SetSalary(db, v));
    DispatchGet(SetSalary(db, v), SalaryPath, NoBody, indexExists);
    GetSalary(SetSalary(db, v), indexExists);
    SalaryAfterSet(db, v);
  }

  /** The animated monthly endpoint runs the same query as the monthly one. */
  lemma MonthlyAnimatedSame(db: Db, indexExists: bool)
    ensures Dispatch(Request("GET", MonthlyAnimatedPath, NoBody), db, indexExists) ==
            Dispatch(Request("GET", MonthlyPath, NoBody), db, indexExists)
  {
    DispatchGet(db, MonthlyAnimatedPath, NoBody, indexExists);
    DispatchGet(db, MonthlyPath, NoBody, indexExists);
    GetMonthly(db, indexExists);
    GetMonthlyAnimated(db, indexExists);
  }

  lemma ExpensesPathQuery(query: string)
    ensures Text.UrlPath(ExpensesPath + "?" + query) == ExpensesPath
  {
    Text.UrlPathDropsQuery(ExpensesPath, query);
  }

  /** GET routes on the `urlparse` path, so a query string is ignored. */
  lemma GetIgnoresQuery(db: Db, query: string, indexExists: bool)
    ensures Dispatch(Request("GET", ExpensesPath + "?" + query, NoBody), db, indexExists) ==
            Dispatch(Request("GET", ExpensesPath, NoBody), db, indexExists)
  {
    DispatchGet(db, ExpensesPath + "?" + query, NoBody, indexExists);
    DispatchGet(db, ExpensesPath, NoBody, indexExists);
    ExpensesPathQuery(query);
    ExpensesPathPlain();
  }

  /** POST routes on the raw target, so the same query string makes it miss
      every route and answer 404. */
  lemma PostWithQueryMisses(db: Db, query: string, body: Body, indexExists: bool)
    ensures Dispatch(Request("POST", ExpensesPath + "?" + query, body), db, indexExists).response.status == 404
  {
    DispatchPost(db, ExpensesPath + "?" + query, body, indexExists);
    assert ExpensesPath + "?" + query != ExpensesPath;
    assert ExpensesPath + "?" + query != SalaryPath by {
      assert (ExpensesPath + "?" + query)[5] != SalaryPath[5];
    }
  }
}
