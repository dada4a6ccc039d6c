/**
 * The paginated profit listing (`get_profits`, src/be/routers/profits.py): query
 * validation, the three filters, the fixed ordering, the offset/limit page and its
 * metadata, and the loop that turns rows into records carrying a month name.
 */
module Profits {
  import opened Wrappers
  import opened Models
  import opened Primitives
  import opened Tables
  import opened Security
  import opened Schemas
  import PyStr

  // ---------------------------------------------------------------- query parameters

  const DEFAULT_PAGE: int := 1
  const DEFAULT_PER_PAGE: int := 25
  const MAX_PER_PAGE: int := 100
  const MIN_YEAR: int := 2020
  const MAX_YEAR: int := 2030
  const MAX_SEARCH_LENGTH: nat := 100

  /** The query string of `GET /profits`; absent optional parameters are `None`. */
  datatype ProfitQuery = ProfitQuery(page: int, perPage: int, company: Option<string>, year: Option<int>, search: Option<string>)

  predicate WellFormed(q: ProfitQuery)
  {
    && q.page >= 1
    && 1 <= q.perPage <= MAX_PER_PAGE
    && (q.year.Some? ==> MIN_YEAR <= q.year.value <= MAX_YEAR)
    && (q.search.Some? ==> |q.search.value| <= MAX_SEARCH_LENGTH)
  }

  function PageViolation(page: int): Option<Violation>
  {
    if page < 1 then Some(Below(1)) else None
  }

  function PerPageViolation(perPage: int): Option<Violation>
  {
    if perPage < 1 then Some(Below(1)) else if perPage > MAX_PER_PAGE then Some(Above(MAX_PER_PAGE)) else None
  }

  function YearViolation(year: Option<int>): Option<Violation>
  {
    if year.None? then None
    else if year.value < MIN_YEAR then Some(Below(MIN_YEAR))
    else if year.value > MAX_YEAR then Some(Above(MAX_YEAR))
    else None
  }

  function SearchViolation(search: Option<string>): Option<Violation>
  {
    if search.Some? && |search.value| > MAX_SEARCH_LENGTH then Some(TooLong(MAX_SEARCH_LENGTH)) else None
  }

  /** Every parameter is checked; errors are listed in declaration order, one per bad parameter. */
  function QueryErrors(q: ProfitQuery): (errs: seq<FieldError>)
    ensures errs == [] <==> WellFormed(q)
    ensures |errs| <= 4
  {
    ErrorFor("page", PageViolation(q.page))
    + ErrorFor("per_page", PerPageViolation(q.perPage))
    + ErrorFor("year", YearViolation(q.year))
    + ErrorFor("search", SearchViolation(q.search))
  }

  // ---------------------------------------------------------------- filtering

  /** A filter applies only when its parameter is truthy: an empty string or year 0 restricts nothing. */
  predicate Matches(q: ProfitQuery, p: Profit)
  {
    && (q.company.Some? && q.company.value != "" ==> p.company == q.company.value)
    && (q.year.Some? && q.year.value != 0 ==> p.year == q.year.value)
    && (q.search.Some? && q.search.value != "" ==> PyStr.Contains(PyStr.Lower(p.company), PyStr.Lower(q.search.value)))
  }

  /** The rows the `where` clauses select, each as often as it occurs in the table, in table order. */
  function Filter(rows: seq<Profit>, q: ProfitQuery): (r: seq<Profit>)
    ensures forall p :: multiset(r)[p] == if Matches(q, p) then multiset(rows)[p] else 0
    ensures forall p :: p in r <==> p in rows && Matches(q, p)
  {
    if rows == [] then []
    else
      assert rows == [rows[0]] + rows[1..];
      (if Matches(q, rows[0]) then [rows[0]] else []) + Filter(rows[1..], q)
  }

  /** With no filter given, every row is selected. */
  lemma {:induction false} NoFilterSelectsAll(rows: seq<Profit>, q: ProfitQuery)
    requires q.company.None? && q.year.None? && q.search.None?
    ensures Filter(rows, q) == rows
  {
    if rows != [] {
      NoFilterSelectsAll(rows[1..], q);
      assert rows == [rows[0]] + rows[1..];
    }
  }

  // ---------------------------------------------------------------- ordering

  /** `ORDER BY year DESC, month DESC, company ASC`: `a` may precede `b`. */
  predicate Before(a: Profit, b: Profit)
  {
    a.year > b.year
    || (a.year == b.year && (a.month > b.month || (a.month == b.month && PyStr.TextLe(a.company, b.company))))
  }

  lemma BeforeTotal(a: Profit, b: Profit)
    ensures Before(a, b) || Before(b, a)
  {
    PyStr.TextLeTotal(a.company, b.company);
  }

  lemma BeforeTransitive(a: Profit, b: Profit, c: Profit)
    requires Before(a, b) && Before(b, c)
    ensures Before(a, c)
  {
    if a.year == b.year == c.year && a.month == b.month == c.month {
      PyStr.TextLeTransitive(a.company, b.company, c.company);
    }
  }

  predicate Ordered(s: seq<Profit>)
  {
    forall i, j :: 0 <= i < j < |s| ==> Before(s[i], s[j])
  }

  lemma ConsOrdered(x: Profit, s: seq<Profit>)
    requires Ordered(s)
    requires forall j :: 0 <= j < |s| ==> Before(x, s[j])
    ensures Ordered([x] + s)
  {
    forall i, j | 0 <= i < j < |[x] + s| ensures Before(([x] + s)[i], ([x] + s)[j]) {
      if i > 0 { assert ([x] + s)[i] == s[i - 1] && ([x] + s)[j] == s[j - 1]; }
    }
  }

  function Insert(p: Profit, s: seq<Profit>): (r: seq<Profit>)
    requires Ordered(s)
    ensures Ordered(r)
    ensures multiset(r) == multiset(s) + multiset{p}
    ensures forall y :: y in r ==> y == p || y in s
  {
    if s == [] then [p]
    else if Before(p, s[0]) then
      assert forall j :: 0 <= j < |s| ==> Before(p, s[j]) by {
        forall j | 0 <= j < |s| ensures Before(p, s[j]) {
          if j > 0 { BeforeTransitive(p, s[0], s[j]); }
        }
      }
      ConsOrdered(p, s);
      [p] + s
    else
      BeforeTotal(p, s[0]);
      var rest := Insert(p, s[1..]);
      assert s == [s[0]] + s[1..];
      assert forall j :: 0 <= j < |rest| ==> Before(s[0], rest[j]) by {
        forall j | 0 <= j < |rest| ensures Before(s[0], rest[j]) {
          assert rest[j] in rest;
          if rest[j] != p {
            var k :| 0 <= k < |s[1..]| && s[1..][k] == rest[j];
            assert s[k + 1] == rest[j];
          }
        }
      }
      ConsOrdered(s[0], rest);
      [s[0]] + rest
  }

  /** The rows in the query's order; the model puts rows equal on all three keys in table order. */
  function OrderRows(s: seq<Profit>): (r: seq<Profit>)
    ensures Ordered(r)
    ensures multiset(r) == multiset(s)
  {
    if s == [] then []
    else
      assert s == [s[0]] + s[1..];
      Insert(s[0], OrderRows(s[1..]))
  }

  // ---------------------------------------------------------------- pagination

  /** `math.ceil(total / per_page)`. */
  function TotalPages(total: nat, perPage: nat): (tp: nat)
    requires perPage >= 1
    ensures tp == 0 <==> total == 0
    ensures total <= tp * perPage
    ensures tp > 0 ==> (tp - 1) * perPage < total
  {
    CeilingDivision(total, perPage);
    (total + perPage - 1) / perPage
  }

  lemma CeilingDivision(total: nat, perPage: nat)
    requires perPage >= 1
    ensures var tp := (total + perPage - 1) / perPage;
      && tp >= 0
      && total <= tp * perPage
      && (tp > 0 ==> (tp - 1) * perPage < total)
      && (tp == 0 <==> total == 0)
  {
    var n := total + perPage - 1;
    var tp := n / perPage;
    var rem := n % perPage;
    assert n == tp * perPage + rem && 0 <= rem < perPage;
    assert tp * perPage == n - rem;
    assert (tp - 1) * perPage == tp * perPage - perPage;
  }

  function Offset(page: int, perPage: int): (o: nat)
    requires page >= 1 && perPage >= 1
  {
    (page - 1) * perPage
  }

  /** `OFFSET (page - 1) * per_page LIMIT per_page`: an offset past the end gives no rows. */
  function PageSlice(rows: seq<Profit>, page: int, perPage: int): (r: seq<Profit>)
    requires page >= 1 && perPage >= 1
    ensures |r| <= perPage
    ensures Offset(page, perPage) >= |rows| ==> r == []
    ensures Offset(page, perPage) < |rows| ==> |r| == if |rows| - Offset(page, perPage) < perPage then |rows| - Offset(page, perPage) else perPage
    ensures forall k :: 0 <= k < |r| ==> Offset(page, perPage) + k < |rows| && r[k] == rows[Offset(page, perPage) + k]
  {
    var o := Offset(page, perPage);
    if o >= |rows| then []
    else rows[o..if o + perPage < |rows| then o + perPage else |rows|]
  }

  lemma MulMonotone(a: int, b: int, c: int)
    requires a <= b && c >= 0
    ensures a * c <= b * c
  {
    assert b * c - a * c == (b - a) * c;
  }

  /** There is a next page exactly when the rows do not end on this one. */
  lemma HasNextIff(total: nat, page: int, perPage: int)
    requires page >= 1 && perPage >= 1
    ensures page < TotalPages(total, perPage) <==> page * perPage < total
  {
    var tp := TotalPages(total, perPage);
    var here := page * perPage;
    if page < tp {
      MulMonotone(page, tp - 1, perPage);
      assert here <= (tp - 1) * perPage < total;
    } else {
      MulMonotone(tp, page, perPage);
      assert total <= tp * perPage <= here;
    }
  }

  /** A page holds rows exactly when its number is at most `total_pages`. */
  lemma PageNonEmptyIff(rows: seq<Profit>, page: int, perPage: int)
    requires page >= 1 && perPage >= 1
    ensures PageSlice(rows, page, perPage) != [] <==> page <= TotalPages(|rows|, perPage)
  {
    var tp := TotalPages(|rows|, perPage);
    var o := Offset(page, perPage);
    if page <= tp {
      assert o <= (tp - 1) * perPage;
      assert o < |rows|;
      assert |PageSlice(rows, page, perPage)| > 0;
    } else {
      assert page - 1 >= tp;
      assert o >= tp * perPage;
    }
  }

  /** Every row is reachable: row `i` is entry `i % per_page` of page `i / per_page + 1`. */
  lemma RecordOnPage(rows: seq<Profit>, perPage: int, i: nat)
    requires perPage >= 1 && i < |rows|
    ensures var page := i / perPage + 1;
      && page <= TotalPages(|rows|, perPage)
      && i % perPage < |PageSlice(rows, page, perPage)|
      && PageSlice(rows, page, perPage)[i % perPage] == rows[i]
  {
    var page := i / perPage + 1;
    assert Offset(page, perPage) + i % perPage == i;
    PageNonEmptyIff(rows, page, perPage);
  }

  // ---------------------------------------------------------------- records

  /** `calendar.month_name`: index 0 is the empty string. */
  const MONTH_NAMES: seq<string> := ["", "January", "February", "March", "April", "May", "June",
    "July", "August", "September", "October", "November", "December"]

  datatype ProfitRecord = ProfitRecord(id: nat, company: string, year: int, month: int, profit: real, monthName: string)

  function ToRecord(p: Profit): (r: ProfitRecord)
    requires ValidMonth(p)
    ensures r.monthName != ""
  {
    ProfitRecord(p.id, p.company, p.year, p.month, p.profit, MONTH_NAMES[p.month])
  }

  datatype ProfitPage = ProfitPage(
    data: seq<ProfitRecord>,
    total: nat,
    page: int,
    perPage: int,
    totalPages: nat,
    hasNext: bool,
    hasPrev: bool)

  /** The records for a run of rows, in the same order. */
  function Records(rows: seq<Profit>): (r: seq<ProfitRecord>)
    requires forall p :: p in rows ==> ValidMonth(p)
    ensures |r| == |rows|
    ensures forall k :: 0 <= k < |rows| ==> r[k] == ToRecord(rows[k])
  {
    seq(|rows|, k requires 0 <= k < |rows| => ToRecord(rows[k]))
  }

  /** The rows of the requested page, in order. */
  function PageRows(profits: seq<Profit>, q: ProfitQuery): (r: seq<Profit>)
    requires WellFormed(q)
    requires forall p :: p in profits ==> ValidMonth(p)
    ensures forall p :: p in r ==> p in profits && Matches(q, p) && ValidMonth(p)
  {
    var selected := Filter(profits, q);
    var rows := PageSlice(OrderRows(selected), q.page, q.perPage);
    assert forall p :: p in rows ==> p in multiset(OrderRows(selected));
    rows
  }

  /** The response body `get_profits` builds for a validated query. */
  function PageOf(profits: seq<Profit>, q: ProfitQuery): ProfitPage
    requires WellFormed(q)
    requires forall p :: p in profits ==> ValidMonth(p)
  {
    var total := |Filter(profits, q)|;
    var tp := TotalPages(total, q.perPage);
    ProfitPage(Records(PageRows(profits, q)), total, q.page, q.perPage, tp, q.page < tp, q.page > 1)
  }

  /** Each record passes all given filters and carries the English name of its month. */
  lemma PageRecordsMatch(profits: seq<Profit>, q: ProfitQuery, k: nat)
    requires WellFormed(q) && forall p :: p in profits ==> ValidMonth(p)
    requires k < |PageOf(profits, q).data|
    ensures var rec := PageOf(profits, q).data[k];
      && (q.company.Some? && q.company.value != "" ==> rec.company == q.company.value)
      && (q.year.Some? ==> rec.year == q.year.value)
      && (q.search.Some? && q.search.value != "" ==> PyStr.Contains(PyStr.Lower(rec.company), PyStr.Lower(q.search.value)))
      && 1 <= rec.month <= 12 && rec.monthName == MONTH_NAMES[rec.month]
  {
    assert PageRows(profits, q)[k] in PageRows(profits, q);
  }

  /** The records come in the query's order. */
  lemma PageRecordsOrdered(profits: seq<Profit>, q: ProfitQuery, i: nat, j: nat)
    requires WellFormed(q) && forall p :: p in profits ==> ValidMonth(p)
    requires i < j < |PageOf(profits, q).data|
    ensures var a, b := PageOf(profits, q).data[i], PageOf(profits, q).data[j];
      a.year > b.year || (a.year == b.year && (a.month > b.month || (a.month == b.month && PyStr.TextLe(a.company, b.company))))
  {
    var sorted := OrderRows(Filter(profits, q));
    var o := Offset(q.page, q.perPage);
    assert Before(sorted[o + i], sorted[o + j]);
  }

  /** `total` counts every selected row; the page holds at most `per_page` of them and `has_next` means more follow. */
  lemma PageMetadata(profits: seq<Profit>, q: ProfitQuery)
    requires WellFormed(q) && forall p :: p in profits ==> ValidMonth(p)
    ensures var pg := PageOf(profits, q);
      && pg.total == |Filter(profits, q)|
      && |pg.data| <= q.perPage
      && (pg.total == 0 ==> pg.totalPages == 0 && pg.data == [])
      && (pg.hasNext <==> q.page * q.perPage < pg.total)
      && (pg.hasPrev <==> q.page > 1)
      && (pg.data != [] <==> q.page <= pg.totalPages)
  {
    var selected := Filter(profits, q);
    HasNextIff(|selected|, q.page, q.perPage);
    PageNonEmptyIff(OrderRows(selected), q.page, q.perPage);
  }

  // ---------------------------------------------------------------- the handler

  /**
   * `get_profits`: the dependency's 401 first, then a 422 listing every bad parameter;
   * otherwise the page, its records built one at a time as the source's loop does.
   */
  method GetProfits(db: Session, lib: Lib, profits: seq<Profit>, accessToken: string, q: ProfitQuery)
    returns (r: Result<ProfitPage, ApiError>)
    requires forall p :: p in profits ==> ValidMonth(p)
    ensures var cur := GetCurrentActiveUser(lib, db.users, accessToken);
      && (cur.Failure? ==> r == Failure(Http(cur.error)))
      && (cur.Success? && !WellFormed(q) ==> r == Failure(Unprocessable(QueryErrors(q))))
      && (cur.Success? && WellFormed(q) ==> r == Success(PageOf(profits, q)))
  {
    var cur := GetCurrentActiveUser(lib, db.users, accessToken);
    if cur.Failure? {
      return Failure(Http(cur.error));
    }
    var errs := QueryErrors(q);
    if errs != [] {
      return Failure(Unprocessable(errs));
    }
    var total := |Filter(profits, q)|;
    var totalPages := TotalPages(total, q.perPage);
    var records := ToRecords(PageRows(profits, q));
    r := Success(ProfitPage(records, total, q.page, q.perPage, totalPages, q.page < totalPages, q.page > 1));
  }

  /** The loop of `get_profits` that validates each row into a record and sets its month name. */
  method ToRecords(rows: seq<Profit>) returns (records: seq<ProfitRecord>)
    requires forall p :: p in rows ==> ValidMonth(p)
    ensures records == Records(rows)
  {
    records := [];
    var k := 0;
    while k < |rows|
      invariant 0 <= k <= |rows|
      invariant records == Records(rows[..k])
    {
      assert rows[..k + 1] == rows[..k] + [rows[k]];
      records := records + [ToRecord(rows[k])];
      k := k + 1;
    }
    assert rows[..k] == rows;
  }
}
