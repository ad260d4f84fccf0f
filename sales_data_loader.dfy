/** Turning CSV lines into sales: skip the header, drop blank lines, split each remaining line
    on commas into exactly eight trimmed fields, and parse the date and the two amounts. */
module SalesDataLoader {
  import opened Wrappers
  import opened Sales
  import opened JavaStrings
  import opened Sequences

  const CsvDelimiter: char := ','
  const FieldCount: nat := 8

  /** Why a line was rejected (both are an IllegalArgumentException in the loader). */
  datatype ParseError =
    | WrongFieldCount(got: nat)  // the line does not split into eight fields
    | Malformed(line: string)    // the date or one of the amounts does not parse

  /** The library parsers the loader calls: LocalDate.parse with the yyyy-MM-dd formatter and
      Double.parseDouble. Each yields None where the library throws. */
  datatype Parsers = Parsers(date: string -> Option<LocalDate>, number: string -> Option<real>)

  function Fields(line: string): (r: seq<string>)
    ensures forall i | 0 <= i < |r| :: CsvDelimiter !in r[i]
    ensures CsvDelimiter !in line ==> r == [line]
    ensures |r| <= |SplitAll(line, CsvDelimiter)|
    ensures CsvDelimiter in line ==> r == SplitAll(line, CsvDelimiter)[..|r|]
    ensures CsvDelimiter in line ==> r == [] || r[|r| - 1] != []
    ensures CsvDelimiter in line ==>
      forall i | |r| <= i < |SplitAll(line, CsvDelimiter)| :: SplitAll(line, CsvDelimiter)[i] == []
  {
    Split(line, CsvDelimiter)
  }

  /** A text field of a parsed sale: no delimiter inside, nothing to trim at its ends. */
  predicate CleanField(f: string)
  {
    CsvDelimiter !in f && Trim(f) == f
  }

  lemma TrimmedFieldIsClean(f: string)
    requires CsvDelimiter !in f
    ensures CleanField(Trim(f))
  {
    TrimIdempotent(f);
  }

  /** parseLine: eight fields or WrongFieldCount; then the trimmed fields in order, with the
      date and the two amounts parsed, or Malformed carrying the whole line. */
  function ParseLine(parsers: Parsers, line: string): (r: Result<Sale, ParseError>)
    ensures |Fields(line)| != FieldCount <==> r == Failure(WrongFieldCount(|Fields(line)|))
    ensures r.Failure? && |Fields(line)| == FieldCount ==> r.error == Malformed(line)
    ensures |Fields(line)| == FieldCount
      && parsers.date(Trim(Fields(line)[1])).Some?
      && parsers.number(Trim(Fields(line)[4])).Some?
      && parsers.number(Trim(Fields(line)[5])).Some?
      ==> r.Success?
    ensures r.Success? ==>
      && r.value.transactionId == Trim(Fields(line)[0])
      && Some(r.value.date) == parsers.date(Trim(Fields(line)[1]))
      && r.value.product == Trim(Fields(line)[2])
      && r.value.category == Trim(Fields(line)[3])
      && Some(r.value.quantity) == parsers.number(Trim(Fields(line)[4]))
      && Some(r.value.unitPrice) == parsers.number(Trim(Fields(line)[5]))
      && r.value.region == Trim(Fields(line)[6])
      && r.value.salesperson == Trim(Fields(line)[7])
    ensures r.Success? ==>
      && CleanField(r.value.transactionId) && CleanField(r.value.product)
      && CleanField(r.value.category) && CleanField(r.value.region)
      && CleanField(r.value.salesperson)
  {
    var f := Fields(line);
    if |f| != FieldCount then Failure(WrongFieldCount(|f|))
    else
      var date := parsers.date(Trim(f[1]));
      var quantity := parsers.number(Trim(f[4]));
      var unitPrice := parsers.number(Trim(f[5]));
      if date.None? || quantity.None? || unitPrice.None? then Failure(Malformed(line))
      else
        TrimmedFieldIsClean(f[0]);
        TrimmedFieldIsClean(f[2]);
        TrimmedFieldIsClean(f[3]);
        TrimmedFieldIsClean(f[6]);
        TrimmedFieldIsClean(f[7]);
        Success(Sale(Trim(f[0]), date.value, Trim(f[2]), Trim(f[3]),
                     quantity.value, unitPrice.value, Trim(f[6]), Trim(f[7])))
  }

  /** The eight columns of a sale's CSV line, given the texts of its date and amounts. */
  function Columns(sale: Sale, dateText: string, quantityText: string, unitPriceText: string): (r: seq<string>)
    ensures |r| == FieldCount
  {
    [sale.transactionId, dateText, sale.product, sale.category,
     quantityText, unitPriceText, sale.region, sale.salesperson]
  }

  function FormatLine(sale: Sale, dateText: string, quantityText: string, unitPriceText: string): string
  {
    Join(Columns(sale, dateText, quantityText, unitPriceText), [CsvDelimiter])
  }

  /** Splitting a line made of clean columns gives back the columns, up to a trailing empty run. */
  lemma FieldsOfColumns(parts: seq<string>)
    requires |parts| >= 2
    requires forall i | 0 <= i < |parts| :: CleanField(parts[i])
    ensures Fields(Join(parts, [CsvDelimiter])) == DropTrailingEmpty(parts)
  {
    var line := Join(parts, [CsvDelimiter]);
    SplitAllJoin(parts, CsvDelimiter);
    assert Occurrences(line, CsvDelimiter) == |parts| - 1;
  }

  /** Round trip: a sale written with clean fields and a non-empty salesperson, whose date and
      amount texts the library parsers read back, is parsed into that very sale. */
  lemma ParseFormattedLine(parsers: Parsers, sale: Sale, dateText: string, quantityText: string, unitPriceText: string)
    requires forall f | f in Columns(sale, dateText, quantityText, unitPriceText) :: CleanField(f)
    requires sale.salesperson != []
    requires parsers.date(dateText) == Some(sale.date)
    requires parsers.number(quantityText) == Some(sale.quantity)
    requires parsers.number(unitPriceText) == Some(sale.unitPrice)
    ensures ParseLine(parsers, FormatLine(sale, dateText, quantityText, unitPriceText)) == Success(sale)
  {
    var parts := Columns(sale, dateText, quantityText, unitPriceText);
    FieldsOfColumns(parts);
    var f := Fields(FormatLine(sale, dateText, quantityText, unitPriceText));
    assert f == parts;
    assert Trim(f[1]) == dateText && Trim(f[4]) == quantityText && Trim(f[5]) == unitPriceText;
  }

  /** An empty last field is dropped by split, so such a line never has eight fields. */
  lemma EmptyLastFieldRejected(parsers: Parsers, sale: Sale, dateText: string, quantityText: string, unitPriceText: string)
    requires forall f | f in Columns(sale, dateText, quantityText, unitPriceText) :: CleanField(f)
    requires sale.salesperson == []
    ensures |Fields(FormatLine(sale, dateText, quantityText, unitPriceText))| < FieldCount
    ensures ParseLine(parsers, FormatLine(sale, dateText, quantityText, unitPriceText)).Failure?
  {
    var parts := Columns(sale, dateText, quantityText, unitPriceText);
    assert forall i | 0 <= i < |parts| :: CleanField(parts[i]) by {
      forall i | 0 <= i < |parts| ensures CleanField(parts[i]) {
        assert parts[i] in parts;
      }
    }
    FieldsOfColumns(parts);
    var kept := DropTrailingEmpty(parts);
    assert kept == parts[..|kept|] && parts[|parts| - 1] == [];
    assert |kept| != |parts| by {
      assert kept == [] || kept[|kept| - 1] != [];
    }
  }

  /** A line of clean columns whose last column is not empty, and which has more than one
      but not eight columns, is rejected with its column count. */
  lemma WrongColumnCountRejected(parsers: Parsers, parts: seq<string>)
    requires 2 <= |parts| && |parts| != FieldCount
    requires forall i | 0 <= i < |parts| :: CleanField(parts[i])
    requires parts[|parts| - 1] != []
    ensures ParseLine(parsers, Join(parts, [CsvDelimiter])) == Failure(WrongFieldCount(|parts|))
  {
    FieldsOfColumns(parts);
  }

  /** The filter of parseLines: keep lines whose trimmed form is not empty. */
  predicate HasContent(line: string)
  {
    Trim(line) != []
  }

  /** skip(1) then the blank-line filter. */
  function DataLines(lines: seq<string>): (r: seq<string>)
    ensures forall i | 0 <= i < |r| :: !IsBlank(r[i])
    ensures lines == [] ==> r == []
    ensures lines != [] ==> SubsequenceOf(r, lines[1..])
    ensures lines != [] ==> forall l | !IsBlank(l) :: multiset(r)[l] == multiset(lines[1..])[l]
  {
    if lines == [] then []
    else
      var r := Filter(lines[1..], HasContent);
      forall i | 0 <= i < |r| ensures !IsBlank(r[i]) { TrimEmptyIffBlank(r[i]); }
      FilterIsSubsequence(lines[1..], HasContent);
      forall l | !IsBlank(l) ensures multiset(r)[l] == multiset(lines[1..])[l] {
        TrimEmptyIffBlank(l);
        FilterKeepsMatches(lines[1..], HasContent, l);
      }
      r
  }

  /** map(parseLine) then collect: every line in order, or the error of the first line that
      does not parse. */
  function ParseAll(parsers: Parsers, lines: seq<string>): (r: Result<seq<Sale>, ParseError>)
    ensures r.Success? ==> |r.value| == |lines|
    ensures r.Success? ==> forall i | 0 <= i < |r.value| :: Success(r.value[i]) == ParseLine(parsers, lines[i])
    ensures r.Failure? ==> exists line | line in lines :: ParseLine(parsers, line) == Failure(r.error)
  {
    var r := MapAll(lines, line => ParseLine(parsers, line));
    assert r.Failure? ==> exists line | line in lines :: ParseLine(parsers, line) == Failure(r.error) by {
      if r.Failure? {
        var i :| 0 <= i < |lines| && ParseLine(parsers, lines[i]) == Failure(r.error);
        assert lines[i] in lines;
      }
    }
    r
  }

  /** parseLines, and loadFromStrings which only hands its list to it. */
  function LoadFromStrings(parsers: Parsers, csvLines: seq<string>): (r: Result<seq<Sale>, ParseError>)
    ensures r.Success? ==> |r.value| == |DataLines(csvLines)|
    ensures r.Success? ==> forall i | 0 <= i < |r.value| ::
      Success(r.value[i]) == ParseLine(parsers, DataLines(csvLines)[i])
    ensures r.Failure? ==> exists line | line in DataLines(csvLines) :: ParseLine(parsers, line) == Failure(r.error)
  {
    ParseAll(parsers, DataLines(csvLines))
  }

  /** A file holding only its header, or nothing at all, yields no sales. */
  lemma HeaderOnlyLoadsNothing(parsers: Parsers, header: string)
    ensures LoadFromStrings(parsers, [header]) == Success([])
    ensures LoadFromStrings(parsers, []) == Success([])
  {
    assert DataLines([header]) == [];
  }

  /** The blank-line filter drops a blank line wherever it stands. */
  lemma DataLinesSkipBlank(header: string, before: seq<string>, blank: string, after: seq<string>)
    requires IsBlank(blank)
    ensures DataLines([header] + before + [blank] + after) == DataLines([header] + before + after)
  {
    TrimEmptyIffBlank(blank);
    var withBlank, without := [header] + before + [blank] + after, [header] + before + after;
    assert withBlank[1..] == before + ([blank] + after);
    assert without[1..] == before + after;
    FilterAppend(before, [blank] + after, HasContent);
    FilterAppend(before, after, HasContent);
    assert ([blank] + after)[1..] == after;
    assert Filter([blank] + after, HasContent) == Filter(after, HasContent);
  }

  /** Blank lines anywhere after the header do not change the outcome. */
  lemma BlankLineIgnored(parsers: Parsers, header: string, before: seq<string>, blank: string, after: seq<string>)
    requires IsBlank(blank)
    ensures LoadFromStrings(parsers, [header] + before + [blank] + after)
         == LoadFromStrings(parsers, [header] + before + after)
  {
    DataLinesSkipBlank(header, before, blank, after);
  }
}
