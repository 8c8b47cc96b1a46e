/** `search_transactions`: the rows whose description or category contains a query, ignoring case. */
module Services {

  import opened Wrappers
  import opened Seqs
  import opened Text
  import opened DateText
  import opened Ledger

  /** One row as `to_dict(orient="records")` hands it over once the date column is text: the
      date is its `"%Y-%m-%d %H:%M:%S"` rendering, None for a missing value. */
  datatype Record = Record(
    opDate: Option<string>,
    amount: int,
    category: string,
    description: string,
    card: Option<string>,
    status: string)

  /** The row after `.str.strip()` of its description and category columns. */
  function TrimRow(t: Txn): Txn
  {
    t.(description := Trim(t.description), category := Trim(t.category))
  }

  function TrimRows(rows: seq<Txn>): (r: seq<Txn>)
    ensures |r| == |rows|
  {
    seq(|rows|, i requires 0 <= i < |rows| => TrimRow(rows[i]))
  }

  function AsRecord(t: Txn): Record
  {
    Record(if t.opDate.Some? then Some(RenderDateTime(t.opDate.value)) else None,
      t.amount, t.category, t.description, t.card, t.status)
  }

  function Records(rows: seq<Txn>): (r: seq<Record>)
    ensures |r| == |rows|
  {
    seq(|rows|, i requires 0 <= i < |rows| => AsRecord(rows[i]))
  }

  /** The filter's lambda, for a query already lower-cased. */
  predicate Matches(r: Record, q: string)
  {
    Contains(Lower(r.description), q) || Contains(Lower(r.category), q)
  }

  /** What `search_transactions(df, query)` lists, given the rows of `df`. */
  function SearchResult(rows: seq<Txn>, query: string): seq<Record>
  {
    Filter(Records(TrimRows(rows)), r => Matches(r, Lower(query)))
  }

  /** `search_transactions`: strips the two text columns of the frame in place, turns its date
      column into text, and returns the records that match in input order. */
  method SearchTransactions(frame: Frame, query: string) returns (found: seq<Record>)
    modifies frame
    ensures frame.rows == TrimRows(old(frame.rows))
    ensures frame.datesAsText
    ensures found == SearchResult(old(frame.rows), query)
  {
    var q := Lower(query);
    frame.rows := TrimRows(frame.rows);
    // a datetime64 column is rendered; one that already holds text is not selected again
    frame.datesAsText := true;
    found := Filter(Records(frame.rows), r => Matches(r, q));
  }

  /** Row `i` is listed exactly when the lower-cased query occurs in its stripped, lower-cased
      description or category; the list keeps input order and each record's multiplicity. */
  lemma SearchSpec(rows: seq<Txn>, query: string)
    ensures IsSubsequence(SearchResult(rows, query), Records(TrimRows(rows)))
    ensures forall r :: multiset(SearchResult(rows, query))[r] ==
                        (if Matches(r, Lower(query)) then multiset(Records(TrimRows(rows)))[r] else 0)
  {
    var p := r => Matches(r, Lower(query));
    FilterIsSubsequence(Records(TrimRows(rows)), p);
    FilterCounts(Records(TrimRows(rows)), p);
  }

  /** The matching rule spelled out as positions: the query, lower-cased, starts at some index of
      the stripped, lower-cased description or of the stripped, lower-cased category. */
  lemma MatchRule(t: Txn, query: string)
    ensures Matches(AsRecord(TrimRow(t)), Lower(query)) <==>
      (exists i :: OccursAt(Lower(Trim(t.description)), Lower(query), i)) ||
      (exists i :: OccursAt(Lower(Trim(t.category)), Lower(query), i))
  {
    ContainsAt(Lower(Trim(t.description)), Lower(query));
    ContainsAt(Lower(Trim(t.category)), Lower(query));
  }

  /** The empty query lists every row. */
  lemma EmptyQueryListsAll(rows: seq<Txn>)
    ensures SearchResult(rows, "") == Records(TrimRows(rows))
  {
    var recs := Records(TrimRows(rows));
    assert Lower("") == "";
    forall i | 0 <= i < |recs| ensures Matches(recs[i], "") {
      EmptyContained(Lower(recs[i].description));
    }
    FilterAll(recs, r => Matches(r, ""));
  }

  /** The search ignores the case of the query. */
  lemma CaseInsensitive(rows: seq<Txn>, query: string)
    ensures SearchResult(rows, Lower(query)) == SearchResult(rows, query)
  {
    LowerIdempotent(query);
  }

  /** Every listed record carries a stripped description and category. */
  lemma ListedRowsStripped(rows: seq<Txn>, query: string)
    ensures forall r :: r in SearchResult(rows, query) ==>
      Trim(r.description) == r.description && Trim(r.category) == r.category
  {
    var recs := Records(TrimRows(rows));
    FilterMembers(recs, r => Matches(r, Lower(query)));
    forall r | r in SearchResult(rows, query)
      ensures Trim(r.description) == r.description && Trim(r.category) == r.category
    {
      var i :| 0 <= i < |recs| && recs[i] == r;
      TrimIdempotent(rows[i].description);
      TrimIdempotent(rows[i].category);
    }
  }

  /** Stripping an already stripped frame changes nothing, so a second search over the frame the
      first one left behind sees the same rows and lists the same records. */
  lemma SearchAgain(rows: seq<Txn>, again: string)
    ensures TrimRows(TrimRows(rows)) == TrimRows(rows)
    ensures SearchResult(TrimRows(rows), again) == SearchResult(rows, again)
  {
    forall i | 0 <= i < |rows| ensures TrimRow(TrimRow(rows[i])) == TrimRow(rows[i]) {
      TrimIdempotent(rows[i].description);
      TrimIdempotent(rows[i].category);
    }
    assert TrimRows(TrimRows(rows)) == TrimRows(rows);
  }

  function SampleRows(): seq<Txn>
  {
    [Txn(None, -50000, "Продукты", "Супермаркеты", None, ""),
     Txn(None, -30000, "Рестораны", "Кафе", None, ""),
     Txn(None, -10000, "Транспорт", "Такси", None, ""),
     Txn(None, -20000, "Транспорт", "Каршеринг", None, "")]
  }

  function SampleRecords(): seq<Record>
  {
    [Record(None, -50000, "Продукты", "Супермаркеты", None, ""),
     Record(None, -30000, "Рестораны", "Кафе", None, ""),
     Record(None, -10000, "Транспорт", "Такси", None, ""),
     Record(None, -20000, "Транспорт", "Каршеринг", None, "")]
  }

  lemma SampleAsRecords()
    ensures Records(TrimRows(SampleRows())) == SampleRecords()
  {
    assert Trim("Продукты") == "Продукты" && Trim("Супермаркеты") == "Супермаркеты";
    assert Trim("Рестораны") == "Рестораны" && Trim("Кафе") == "Кафе";
    assert Trim("Транспорт") == "Транспорт" && Trim("Такси") == "Такси";
    assert Trim("Каршеринг") == "Каршеринг";
  }

  /** A row whose stripped description is the query up to case is listed. */
  lemma SameWordFound(rows: seq<Txn>, query: string, k: nat)
    requires k < |rows| && Lower(Trim(rows[k].description)) == Lower(query)
    ensures AsRecord(TrimRow(rows[k])) in SearchResult(rows, query)
  {
    var recs := Records(TrimRows(rows));
    assert recs[k] == AsRecord(TrimRow(rows[k]));
    assert StartsWith(Lower(recs[k].description), Lower(query));
    FilterMembers(recs, r => Matches(r, Lower(query)));
  }

  /** A query that occurs in no row's stripped description or category lists nothing. */
  lemma NothingFound(rows: seq<Txn>, query: string)
    requires forall i :: 0 <= i < |rows| ==>
      !Contains(Lower(Trim(rows[i].description)), Lower(query)) && !Contains(Lower(Trim(rows[i].category)), Lower(query))
    ensures SearchResult(rows, query) == []
  {
    var recs := Records(TrimRows(rows));
    FilterNone(recs, r => Matches(r, Lower(query)));
  }

  /** "супермаркеты" finds the row described "Супермаркеты". */
  lemma FoundExample()
    ensures SampleRecords()[0] in SearchResult(SampleRows(), "супермаркеты")
  {
    SampleAsRecords();
    LowerCapitalised('С', "упермаркеты");
    assert "Супермаркеты" == ['С'] + "упермаркеты";
    LowerCapitalised('с', "упермаркеты");
    assert "супермаркеты" == ['с'] + "упермаркеты";
    SameWordFound(SampleRows(), "супермаркеты", 0);
  }
}
