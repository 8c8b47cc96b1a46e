/** The transaction table: one record per ledger row, and the pandas DataFrame that holds them. */
module Ledger {

  import opened Wrappers
  import opened Calendar

  /** One ledger row. `opDate` is None where the source value could not be read as a date
      (pandas NaT); `amount` is signed, in kopecks: negative is money out. */
  datatype Txn = Txn(
    opDate: Option<DateTime>,
    amount: int,
    category: string,
    description: string,
    card: Option<string>,
    status: string)

  /** The DataFrame that services and reports receive and change in place. `datesAsText` is the
      dtype of the operation-date column: false for datetime64, true once its cells have been
      replaced by their `strftime("%Y-%m-%d %H:%M:%S")` text (NaT becoming a missing value).
      While it is true, the text in the column is the rendering of each row's `opDate`. */
  class Frame {
    var rows: seq<Txn>
    var datesAsText: bool

    constructor (rows: seq<Txn>)
      ensures this.rows == rows && !datesAsText
    {
      this.rows := rows;
      datesAsText := false;
    }
  }
}
