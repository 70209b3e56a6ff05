/**
 * The normalised statement that the rest of the chatbot works on: a table
 * whose columns are some of Date, Debit, Credit and Reference, one record
 * per transaction row.
 */
module Ledger {
  import opened Wrappers
  import opened Amounts

  /** A calendar day, as `pd.to_datetime` leaves it. */
  datatype Date = Date(year: int, month: int, day: int)

  /** Chronological order on days. */
  predicate DateLt(a: Date, b: Date) {
    a.year < b.year || (a.year == b.year && (a.month < b.month || (a.month == b.month && a.day < b.day)))
  }

  predicate DateLe(a: Date, b: Date) {
    a == b || DateLt(a, b)
  }

  /** The canonical column names. */
  datatype Canon = DateCol | DebitCol | CreditCol | ReferenceCol

  /** One row. A missing date is `NaT`; Debit and Credit are numbers
      (missing and unreadable cells become 0); a missing Reference cell
      stays missing. A field whose column the table lacks holds its
      default (`None`, 0, `None`). */
  datatype Txn = Txn(date: Option<Date>, debit: real, credit: real, reference: Cell)

  /** A table: the columns it has, in order, and its rows. */
  datatype Store = Store(columns: seq<Canon>, rows: seq<Txn>)

  predicate Has(s: Store, c: Canon) {
    c in s.columns
  }

  /** `df.empty`: no rows, or no columns. */
  predicate IsEmpty(s: Store) {
    |s.rows| == 0 || |s.columns| == 0
  }

  /** `pd.DataFrame()`. */
  const NoFrame: Store := Store([], [])

  /** The value of an amount column (Debit unless Credit is asked for). */
  function AmountOf(t: Txn, c: Canon): real {
    if c == CreditCol then t.credit else t.debit
  }
}
