/**
 * One parsed bank record (models/transaction.py). The dataclass's fields are all
 * assignable in Python, but the core only ever assigns `category`; the other four
 * are therefore constants here, and `category` is the one mutable field.
 */
module Transactions {

  /** A calendar date, as `datetime.date` holds it. */
  datatype Date = Date(year: int, month: int, day: int)

  /** The Gregorian leap-year rule used by `datetime`. */
  predicate IsLeapYear(year: int) {
    year % 4 == 0 && (year % 100 != 0 || year % 400 == 0)
  }

  function DaysInMonth(year: int, month: int): (n: int)
    requires 1 <= month <= 12
    ensures 28 <= n <= 31
  {
    if month == 2 then (if IsLeapYear(year) then 29 else 28)
    else if month == 4 || month == 6 || month == 9 || month == 11 then 30
    else 31
  }

  /** The dates `datetime.date` can represent: years 1 to 9999 and a day that exists in its month. */
  predicate ValidDate(d: Date) {
    1 <= d.year <= 9999 && 1 <= d.month <= 12 && 1 <= d.day <= DaysInMonth(d.year, d.month)
  }

  class Transaction {
    const date: Date
    const merchant: string
    /** Signed amount: negative is an expense, positive is income. */
    const amount: real
    /** Empty until categorised; the only field the core updates. */
    var category: string
    /** The source row's fields, verbatim. */
    const raw: seq<string>

    constructor (date: Date, merchant: string, amount: real, category: string, raw: seq<string>)
      ensures this.date == date && this.merchant == merchant && this.amount == amount
      ensures this.category == category && this.raw == raw
    {
      this.date := date;
      this.merchant := merchant;
      this.amount := amount;
      this.category := category;
      this.raw := raw;
    }
  }
}
