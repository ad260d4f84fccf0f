/** The immutable sale record and the calendar date it carries. */
module Sales {

  /** java.time.LocalDate's year range. */
  const MinYear := -999_999_999
  const MaxYear := 999_999_999

  datatype Date = Date(year: int, month: int, day: int)

  /** The proleptic Gregorian leap-year rule LocalDate uses. */
  predicate IsLeapYear(year: int)
  {
    year % 4 == 0 && (year % 100 != 0 || year % 400 == 0)
  }

  function DaysInMonth(year: int, month: int): (n: int)
    requires 1 <= month <= 12
    ensures 28 <= n <= 31
  {
    if month == 2 then (if IsLeapYear(year) then 29 else 28)
    else if month == 4 || month == 6 || month == 9 || month == 11 then 30
    else 31
  }

  predicate ValidDate(d: Date)
  {
    && MinYear <= d.year <= MaxYear
    && 1 <= d.month <= 12
    && 1 <= d.day <= DaysInMonth(d.year, d.month)
  }

  /** A value of java.time.LocalDate: always a real calendar date. */
  type LocalDate = d: Date | ValidDate(d) witness Date(2024, 1, 1)

  /** LocalDate.compareTo(a, b) <= 0: year first, then month, then day. */
  predicate DateLe(a: LocalDate, b: LocalDate)
  {
    a.year < b.year || (a.year == b.year && (a.month < b.month || (a.month == b.month && a.day <= b.day)))
  }

  /** A sale. The eight fields are the eight constructor arguments, and the datatype's
      destructors are the eight getters. */
  datatype Sale = Sale(
    transactionId: string,
    date: LocalDate,
    product: string,
    category: string,
    quantity: real,
    unitPrice: real,
    region: string,
    salesperson: string)

  /** getTotalAmount: quantity times unit price, never negative when neither factor is. */
  function TotalAmount(s: Sale): (r: real)
    ensures 0.0 <= s.quantity && 0.0 <= s.unitPrice ==> 0.0 <= r
  {
    s.quantity * s.unitPrice
  }

  /** getMonth: the month of the sale's date. */
  function Month(s: Sale): (m: int)
    ensures 1 <= m <= 12
  {
    s.date.month
  }

  /** getYear: the year of the sale's date. */
  function Year(s: Sale): (y: int)
    ensures MinYear <= y <= MaxYear
  {
    s.date.year
  }

  /** equals: field by field, the two amounts compared as numbers and the rest as values. */
  predicate SaleEquals(a: Sale, b: Sale)
  {
    && b.quantity == a.quantity
    && b.unitPrice == a.unitPrice
    && a.transactionId == b.transactionId
    && a.date == b.date
    && a.product == b.product
    && a.category == b.category
    && a.region == b.region
    && a.salesperson == b.salesperson
  }

  /** equals holds exactly when the two sales are the same value. */
  lemma SaleEqualsIsEquality(a: Sale, b: Sale)
    ensures SaleEquals(a, b) <==> a == b
  {
  }

  /** equals is an equivalence relation. */
  lemma SaleEqualsIsEquivalence(a: Sale, b: Sale, c: Sale)
    ensures SaleEquals(a, a)
    ensures SaleEquals(a, b) ==> SaleEquals(b, a)
    ensures SaleEquals(a, b) && SaleEquals(b, c) ==> SaleEquals(a, c)
  {
  }
}
