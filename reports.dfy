/** `spending_by_category`: what one category cost over the 90 days up to a given date. */
module Reports {

  import opened Wrappers
  import opened Seqs
  import opened Calendar
  import opened DateText
  import opened Ledger

  datatype CategoryReport = CategoryReport(category: string, totalSpending: int)

  /** `strptime` rejected the date, or `timedelta` subtraction left the range of `datetime`. */
  datatype ReportError = InvalidDate | DateOutOfRange

  const WindowDays: nat := 90

  /** `int(x)` of a rouble sum given in kopecks: whole roubles, truncated toward zero. */
  function WholeUnits(kopecks: int): (r: int)
    ensures kopecks >= 0 ==> 0 <= kopecks - r * 100 < 100
    ensures kopecks < 0 ==> 0 <= r * 100 - kopecks < 100
  {
    if kopecks >= 0 then kopecks / 100 else -((-kopecks) / 100)
  }

  /** The mask of `spending_by_category`: the exact category and a date within [start, end]. */
  predicate InWindow(t: Txn, category: string, start: DateTime, end: DateTime)
  {
    t.category == category && t.opDate.Some? && LessEq(start, t.opDate.value) && LessEq(t.opDate.value, end)
  }

  function SumAmounts(rows: seq<Txn>): int
  {
    if rows == [] then 0 else rows[0].amount + SumAmounts(rows[1..])
  }

  /** The total of the rows of `category` whose date lies in [start, end]. */
  function WindowTotal(rows: seq<Txn>, category: string, start: DateTime, end: DateTime): int
  {
    SumAmounts(Filter(rows, t => InWindow(t, category, start, end)))
  }

  /** What `spending_by_category(transactions, category, date)` returns for a table whose date
      column holds `rows`' dates: `end` is midnight of `date`, `start` 90 days before it. */
  function SpendingReport(rows: seq<Txn>, category: string, date: string): Result<CategoryReport, ReportError>
  {
    match ParseDate(date)
    case None => Failure(InvalidDate)
    case Some(end) =>
      match MinusDays(end, WindowDays)
      case None => Failure(DateOutOfRange)
      case Some(start) => Success(CategoryReport(category, WholeUnits(WindowTotal(rows, category, start, end))))
  }

  /** `pd.to_datetime(..., errors='coerce')` on a date column that holds the
      `"%Y-%m-%d %H:%M:%S"` text of each row's date: every cell reads back as the date it was
      rendered from, and a missing cell stays missing. */
  method ReparseDates(rows: seq<Txn>) returns (coerced: seq<Txn>)
    ensures coerced == rows
  {
    coerced := [];
    for i := 0 to |rows|
      invariant coerced == rows[..i]
    {
      var t := rows[i];
      var cell := if t.opDate.Some? then ParseDateTime(RenderDateTime(t.opDate.value)) else None;
      if t.opDate.Some? {
        ParseRenderDateTime(t.opDate.value);
      }
      coerced := coerced + [t.(opDate := cell)];
      assert rows[..i + 1] == rows[..i] + [t];
    }
    assert rows[..|rows|] == rows;
  }

  /** `spending_by_category`: parses the date, converts the frame's date column back to
      datetime (in place, as the source does), then sums the matching amounts. */
  method SpendingByCategory(frame: Frame, category: string, date: string) returns (r: Result<CategoryReport, ReportError>)
    modifies frame
    ensures r == SpendingReport(old(frame.rows), category, date)
    ensures frame.rows == old(frame.rows)
    ensures frame.datesAsText == (old(frame.datesAsText) && r.Failure?)
  {
    var end := ParseDate(date);
    if end.None? {
      return Failure(InvalidDate);
    }
    var start := MinusDays(end.value, WindowDays);
    if start.None? {
      return Failure(DateOutOfRange);
    }
    if frame.datesAsText {
      frame.rows := ReparseDates(frame.rows);
      frame.datesAsText := false;
    }
    var matching := Filter(frame.rows, t => InWindow(t, category, start.value, end.value));
    r := Success(CategoryReport(category, WholeUnits(SumAmounts(matching))));
  }

  lemma {:induction false} SumAmountsAppend(a: seq<Txn>, b: seq<Txn>)
    ensures SumAmounts(a + b) == SumAmounts(a) + SumAmounts(b)
  {
    if a == [] {
      assert a + b == b;
    } else {
      assert (a + b)[1..] == a[1..] + b;
      SumAmountsAppend(a[1..], b);
    }
  }

  /** The report fails only on a date strptime rejects or one within 90 days of 0001-01-01, and
      otherwise ends the window at midnight of the date, echoes the category and truncates the
      window's total to whole roubles. */
  lemma SpendingReportSpec(rows: seq<Txn>, category: string, date: string)
    ensures SpendingReport(rows, category, date).Failure? <==>
      ParseDate(date).None? || DaysFromCivil(ParseDate(date).value.year, ParseDate(date).value.month, ParseDate(date).value.day) < WindowDays
    ensures SpendingReport(rows, category, date).Success? ==>
      var end := ParseDate(date).value;
      var start := MinusDays(end, WindowDays).value;
      && end.sec == 0
      && SpendingReport(rows, category, date).value.category == category
      && SpendingReport(rows, category, date).value.totalSpending == WholeUnits(WindowTotal(rows, category, start, end))
  {
    if ParseDate(date).Some? {
      MinusDaysExact(ParseDate(date).value, WindowDays);
    }
  }

  /** The window of the report, for the end `SpendingReportSpec` shows is midnight of the given
      date: the category matches exactly, and the date lies between 90 days before that
      midnight and the midnight itself, both included, so rows later on the end day are outside. */
  lemma SpendWindowSpan(t: Txn, category: string, end: DateTime)
    requires MinusDays(end, WindowDays).Some?
    ensures InWindow(t, category, MinusDays(end, WindowDays).value, end) <==>
      t.category == category && t.opDate.Some? &&
      Ordinal(end) - WindowDays * SecondsPerDay <= Ordinal(t.opDate.value) <= Ordinal(end)
  {
    var start := MinusDays(end, WindowDays).value;
    MinusDaysExact(end, WindowDays);
    if t.opDate.Some? {
      OrderMatchesOrdinal(start, t.opDate.value);
      OrderMatchesOrdinal(t.opDate.value, end);
    }
  }

  /** Rows of other categories, or outside the window, do not change the total. */
  lemma WindowTotalAppend(rows: seq<Txn>, t: Txn, category: string, start: DateTime, end: DateTime)
    ensures WindowTotal(rows + [t], category, start, end) ==
      WindowTotal(rows, category, start, end) + (if InWindow(t, category, start, end) then t.amount else 0)
  {
    var p := u => InWindow(u, category, start, end);
    FilterAppend(rows, [t], p);
    assert Filter([t], p) == if p(t) then [t] else [] by {
      assert [t][1..] == [];
    }
    SumAmountsAppend(Filter(rows, p), Filter([t], p));
  }

  /** With no row of the category, the total is 0. */
  lemma NoMatchIsZero(rows: seq<Txn>, category: string, start: DateTime, end: DateTime)
    requires forall t :: t in rows ==> t.category != category
    ensures WindowTotal(rows, category, start, end) == 0
  {
    var p := u => InWindow(u, category, start, end);
    forall i | 0 <= i < |rows| ensures !p(rows[i]) {
      assert rows[i] in rows;
    }
    FilterNone(rows, p);
  }

  /** A sum of -500.50 roubles is reported as -500: truncation, not floor. */
  lemma TruncatesTowardZero()
    ensures WholeUnits(-50050) == -500 && WholeUnits(50050) == 500
  {
  }

  lemma RenderedQueryDate()
    ensures RenderDate(Timestamp(2024, 2, 1, 0)) == "2024-02-01"
  {
    assert Pad4(2024) == "2024" && Pad2(2) == "02" && Pad2(1) == "01";
  }

  lemma ExampleWindowStart()
    ensures MinusDays(Timestamp(2024, 2, 1, 0), WindowDays) == Some(Timestamp(2023, 11, 3, 0))
  {
  }

  function ExampleRows(): seq<Txn>
  {
    [Txn(Some(Timestamp(2024, 1, 1, 0)), -50000, "Фастфуд", "", None, ""),
     Txn(Some(Timestamp(2024, 2, 1, 0)), -20000, "Фастфуд", "", None, "")]
  }

  /** Two "Фастфуд" expenses of 500 and 200 roubles, on 2024-01-01 and 2024-02-01, queried on
      2024-02-01 (`RenderedQueryDate`: the text "2024-02-01"), total -700. */
  lemma SpendingExample()
    ensures SpendingReport(ExampleRows(), "Фастфуд", RenderDate(Timestamp(2024, 2, 1, 0)))
      == Success(CategoryReport("Фастфуд", -700))
  {
    var end: DateTime := Timestamp(2024, 2, 1, 0);
    ParseRenderDate(end);
    ExampleWindowStart();
    var start: DateTime := Timestamp(2023, 11, 3, 0);
    var rows := ExampleRows();
    FilterAll(rows, t => InWindow(t, "Фастфуд", start, end));
    assert SumAmounts(rows) == -70000;
  }
}
