/**
 * `total_return`: the annualised percentage change of every column of a
 * time-indexed table between two dates, using for each date the first row
 * on or after it, ordered from the highest change to the lowest.
 */
module ReturnCalculator {
  import opened Results
  import opened Calendar
  import opened DateFormat

  /** A date argument: a `datetime` (by its ordinal day), a string, or any other value. */
  datatype DateArg = DateValue(day: int) | DateString(text: string) | OtherValue

  /** One row of the table: its date (an ordinal day) and the values present in it by column. */
  datatype Row = Row(date: int, values: map<string, real>)

  /** The merged table: its column names in order and its rows in index order. */
  datatype Table = Table(columns: seq<string>, rows: seq<Row>)

  /** One entry of the result: a column and its annualised percentage change. */
  datatype Change = Change(column: string, percent: real)

  datatype Error =
    | WrongArgumentType          // a date argument is neither a datetime nor a string: the call returns -1
    | DateParseError             // strptime raises ValueError
    | NoRowOnOrAfter(date: int)  // iloc[0] on an empty selection raises IndexError
    | ZeroElapsed                // both dates fall on the same day: the division by num_years is not finite
    | UndefinedChange(column: string)  // a selected row lacks the column, or its start value is zero

  /** Turns one date argument into a day number, or says why it cannot. */
  function Classify(a: DateArg): (r: Result<int, Error>)
    ensures r == Err(WrongArgumentType) <==> a.OtherValue?
    ensures r == Err(DateParseError) <==> a.DateString? && ParseIso(a.text).None?
    ensures a.DateValue? ==> r == Ok(a.day)
  {
    match a
    case DateValue(n) => Ok(n)
    case DateString(s) =>
      (match ParseIso(s)
       case Some(d) => Ok(Ordinal(d))
       case None => Err(DateParseError))
    case OtherValue => Err(WrongArgumentType)
  }

  /** A string that is read gives the day number of the valid date it is the formatted form of. */
  lemma StringReadsAsFormattedDate(text: string)
    requires Classify(DateString(text)).Ok?
    ensures exists d :: Valid(d) && text == FormatIso(d) && Classify(DateString(text)).value == Ordinal(d)
  {
    FormatParse(text);
    var d := ParseIso(text).value;
    assert Valid(d) && text == FormatIso(d) && Classify(DateString(text)).value == Ordinal(d);
  }

  /** Classifies the start argument, then the final one; the first failure decides the outcome. */
  function ResolveDates(start: DateArg, final: DateArg): (r: Result<(int, int), Error>)
    ensures r.Ok? <==> Classify(start).Ok? && Classify(final).Ok?
    ensures r.Ok? ==> r.value == (Classify(start).value, Classify(final).value)
    ensures Classify(start).Err? ==> r == Err(Classify(start).error)
    ensures Classify(start).Ok? && Classify(final).Err? ==> r == Err(Classify(final).error)
  {
    match Classify(start)
    case Err(e) => Err(e)
    case Ok(s) =>
      match Classify(final)
      case Err(e) => Err(e)
      case Ok(f) => Ok((s, f))
  }

  /** The two dates, swapped when the first is the later one. */
  function OrderedDates(a: int, b: int): (r: (int, int))
    ensures r.0 <= r.1
    ensures r == (a, b) || r == (b, a)
  {
    if a > b then (b, a) else (a, b)
  }

  /** Elapsed years between two ordered days: the day count over 365.25. */
  function YearFraction(lo: int, hi: int): (r: real)
    requires lo <= hi
    ensures r >= 0.0
    ensures r == 0.0 <==> lo == hi
    ensures r * 365.25 == (hi - lo) as real
  {
    (hi - lo) as real / 365.25
  }

  /** The first row, in table order, whose date is on or after `boundary`. */
  function FirstAtOrAfter(rows: seq<Row>, boundary: int): (r: Option<nat>)
    ensures r.Some? ==> r.value < |rows| && rows[r.value].date >= boundary
    ensures r.Some? ==> forall k :: 0 <= k < r.value ==> rows[k].date < boundary
    ensures r.None? <==> forall k :: 0 <= k < |rows| ==> rows[k].date < boundary
  {
    if |rows| == 0 then None
    else if rows[0].date >= boundary then Some(0)
    else match FirstAtOrAfter(rows[1..], boundary)
      case None => None
      case Some(i) => Some(i + 1)
  }

  /** Finds the row `df[df.index >= boundary].iloc[0]` takes, scanning the rows in order. */
  method SelectRow(rows: seq<Row>, boundary: int) returns (r: Option<nat>)
    ensures r == FirstAtOrAfter(rows, boundary)
  {
    var i := 0;
    while i < |rows|
      invariant 0 <= i <= |rows|
      invariant forall k :: 0 <= k < i ==> rows[k].date < boundary
    {
      if rows[i].date >= boundary {
        return Some(i);
      }
      i := i + 1;
    }
    return None;
  }

  /** A column has a finite change between two rows when both hold it and the start value is not zero. */
  predicate Defined(column: string, start: Row, stop: Row) {
    column in start.values && column in stop.values && start.values[column] != 0.0
  }

  /**
   * `(stop - start) / start * 100 / years`: compounding the annualised rate
   * back over the elapsed years gives the stop value again.
   */
  function AnnualisedChange(start: real, stop: real, years: real): (r: real)
    requires start != 0.0 && years != 0.0
    ensures start + start * r * years / 100.0 == stop
  {
    (stop - start) / start * 100.0 / years
  }

  /** The annualised change of every column, in column order, or the first column whose change is not finite. */
  function ColumnChanges(columns: seq<string>, start: Row, stop: Row, years: real): (r: Result<seq<Change>, Error>)
    requires years != 0.0
    ensures r.Ok? <==> forall k :: 0 <= k < |columns| ==> Defined(columns[k], start, stop)
    ensures r.Ok? ==> |r.value| == |columns|
    ensures r.Ok? ==> forall k :: 0 <= k < |columns| ==>
      r.value[k] == Change(columns[k], AnnualisedChange(start.values[columns[k]], stop.values[columns[k]], years))
    ensures r.Err? ==> exists k ::
      && 0 <= k < |columns|
      && !Defined(columns[k], start, stop)
      && r.error == UndefinedChange(columns[k])
      && forall j :: 0 <= j < k ==> Defined(columns[j], start, stop)
  {
    if |columns| == 0 then Ok([])
    else
      var c := columns[0];
      if !Defined(c, start, stop) then Err(UndefinedChange(c))
      else
        match ColumnChanges(columns[1..], start, stop, years)
        case Err(e) => Err(e)
        case Ok(rest) =>
          Ok([Change(c, AnnualisedChange(start.values[c], stop.values[c], years))] + rest)
  }

  /**
   * What `total_return` computes, before sorting: the per-column changes in
   * column order, or the error the call ends in.
   */
  function AnnualisedChanges(t: Table, start: DateArg, final: DateArg): (r: Result<seq<Change>, Error>)
    ensures r.Ok? ==> |r.value| == |t.columns| && forall k :: 0 <= k < |t.columns| ==> r.value[k].column == t.columns[k]
  {
    match ResolveDates(start, final)
    case Err(e) => Err(e)
    case Ok(dates) =>
      var (lo, hi) := OrderedDates(dates.0, dates.1);
      match FirstAtOrAfter(t.rows, lo)
      case None => Err(NoRowOnOrAfter(lo))
      case Some(i) =>
        match FirstAtOrAfter(t.rows, hi)
        case None => Err(NoRowOnOrAfter(hi))
        case Some(j) =>
          if lo == hi then (if |t.columns| == 0 then Ok([]) else Err(ZeroElapsed))
          else ColumnChanges(t.columns, t.rows[i], t.rows[j], YearFraction(lo, hi))
  }

  /** Ordered by non-increasing change. */
  predicate SortedDescending(s: seq<Change>) {
    forall i, j :: 0 <= i < j < |s| ==> s[i].percent >= s[j].percent
  }

  /** Placing `x` between the entries not smaller and the entries smaller keeps the order. */
  lemma InsertAtKeepsOrder(s: seq<Change>, k: nat, x: Change)
    requires SortedDescending(s) && k <= |s|
    requires forall i :: 0 <= i < k ==> s[i].percent >= x.percent
    requires k < |s| ==> s[k].percent < x.percent
    ensures SortedDescending(s[..k] + [x] + s[k..])
  {
    var r := s[..k] + [x] + s[k..];
    forall i, j | 0 <= i < j < |r|
      ensures r[i].percent >= r[j].percent
    {
      if j < k {
        assert r[i] == s[i] && r[j] == s[j];
      } else if j == k {
        assert r[i] == s[i] && r[j] == x;
      } else if i == k {
        assert r[j] == s[j - 1];
        assert s[j - 1].percent <= s[k].percent;
      } else if i < k {
        assert r[i] == s[i] && r[j] == s[j - 1];
      } else {
        assert r[i] == s[i - 1] && r[j] == s[j - 1];
      }
    }
  }

  /** Placing `x` anywhere adds exactly `x`. */
  lemma InsertAtAddsOne(s: seq<Change>, k: nat, x: Change)
    requires k <= |s|
    ensures multiset(s[..k] + [x] + s[k..]) == multiset(s) + multiset{x}
  {
    assert s == s[..k] + s[k..];
  }

  /** Puts `x` into a sorted sequence after every entry that is not smaller. */
  method InsertDescending(s: seq<Change>, x: Change) returns (r: seq<Change>)
    requires SortedDescending(s)
    ensures SortedDescending(r)
    ensures multiset(r) == multiset(s) + multiset{x}
  {
    var k := 0;
    while k < |s| && s[k].percent >= x.percent
      invariant 0 <= k <= |s|
      invariant forall i :: 0 <= i < k ==> s[i].percent >= x.percent
    {
      k := k + 1;
    }
    InsertAtKeepsOrder(s, k, x);
    InsertAtAddsOne(s, k, x);
    r := s[..k] + [x] + s[k..];
  }

  /** `changes.sort_values(ascending=False)`: a permutation ordered by non-increasing change. */
  method SortDescending(s: seq<Change>) returns (r: seq<Change>)
    ensures SortedDescending(r)
    ensures multiset(r) == multiset(s)
  {
    r := [];
    var i := 0;
    while i < |s|
      invariant 0 <= i <= |s|
      invariant SortedDescending(r)
      invariant multiset(r) == multiset(s[..i])
    {
      r := InsertDescending(r, s[i]);
      assert s[..i + 1] == s[..i] + [s[i]];
      i := i + 1;
    }
    assert s[..i] == s;
  }

  /**
   * `total_return(df, start_date, final_date)`: fails as `AnnualisedChanges`
   * does, and otherwise returns its changes sorted by non-increasing value.
   */
  method TotalReturn(t: Table, startDate: DateArg, finalDate: DateArg) returns (r: Result<seq<Change>, Error>)
    ensures r.Err? <==> AnnualisedChanges(t, startDate, finalDate).Err?
    ensures r.Err? ==> r == AnnualisedChanges(t, startDate, finalDate)
    ensures r.Ok? ==> SortedDescending(r.value)
    ensures r.Ok? ==> multiset(r.value) == multiset(AnnualisedChanges(t, startDate, finalDate).value)
  {
    var start := Classify(startDate);
    if start.Err? {
      return Err(start.error);
    }
    var final := Classify(finalDate);
    if final.Err? {
      return Err(final.error);
    }
    var lo, hi := start.value, final.value;
    if lo > hi {
      lo, hi := hi, lo;
    }
    var years := YearFraction(lo, hi);
    var i := SelectRow(t.rows, lo);
    if i.None? {
      return Err(NoRowOnOrAfter(lo));
    }
    var j := SelectRow(t.rows, hi);
    if j.None? {
      return Err(NoRowOnOrAfter(hi));
    }
    if lo == hi {
      if |t.columns| == 0 {
        return Ok([]);
      }
      return Err(ZeroElapsed);
    }
    var changes := ColumnChanges(t.columns, t.rows[i.value], t.rows[j.value], years);
    if changes.Err? {
      return Err(changes.error);
    }
    var sorted := SortDescending(changes.value);
    return Ok(sorted);
  }

  // Properties of the model

  /** The -1 sentinel comes exactly from a start argument of the wrong type, or a good start and a final argument of the wrong type. */
  lemma SentinelExactly(t: Table, start: DateArg, final: DateArg)
    ensures AnnualisedChanges(t, start, final) == Err(WrongArgumentType)
        <==> start.OtherValue? || (Classify(start).Ok? && final.OtherValue?)
  {
  }

  /** When a date argument is rejected, the table is never looked at. */
  lemma DateErrorsIgnoreTable(t1: Table, t2: Table, start: DateArg, final: DateArg)
    requires ResolveDates(start, final).Err?
    ensures AnnualisedChanges(t1, start, final) == AnnualisedChanges(t2, start, final)
    ensures AnnualisedChanges(t1, start, final).error in {WrongArgumentType, DateParseError}
  {
  }

  /**
   * A string that does not parse as a date raises, whatever the other argument
   * is when it is the start, and after any readable start when it is the final
   * date; it never gives the sentinel.
   */
  lemma MalformedStringRaises(t: Table, start: DateArg, text: string, final: DateArg)
    requires ParseIso(text).None?
    ensures AnnualisedChanges(t, DateString(text), final) == Err(DateParseError)
    ensures Classify(start).Ok? ==> AnnualisedChanges(t, start, DateString(text)) == Err(DateParseError)
  {
  }

  /** On the same day, a table with columns has no finite change and one without has no changes at all. */
  lemma SameDay(t: Table, start: DateArg, final: DateArg)
    requires ResolveDates(start, final).Ok? && ResolveDates(start, final).value.0 == ResolveDates(start, final).value.1
    requires FirstAtOrAfter(t.rows, ResolveDates(start, final).value.0).Some?
    ensures |t.columns| > 0 ==> AnnualisedChanges(t, start, final) == Err(ZeroElapsed)
    ensures |t.columns| == 0 ==> AnnualisedChanges(t, start, final) == Ok([])
  {
  }

  lemma NotADateDoesNotParse()
    ensures ParseIso("not-a-date").None?
  {
    assert !IsDigit("not-a-date"[..4][0]);
  }

  /** 2021 is not a leap year, so its February has no 29th. */
  lemma MissingLeapDayDoesNotParse()
    ensures ParseIso("2021-02-29").None?
  {
    var s := "2021-02-29";
    assert s[..4] == "2021" && s[5..7] == "02" && s[8..] == "29";
    assert NumberValue("2021") == 2021 by {
      assert "2021"[..3] == "202" && "202"[..2] == "20" && "20"[..1] == "2" && "2"[..0] == "";
    }
    assert NumberValue("02") == 2 && NumberValue("29") == 29 by {
      assert "02"[..1] == "0" && "0"[..0] == "" && "29"[..1] == "2" && "2"[..0] == "";
    }
  }

  /** `"not-a-date"` and a day February 2021 does not have both raise, whatever the other argument is. */
  lemma NotADateRaises(t: Table)
    ensures AnnualisedChanges(t, DateString("not-a-date"), DateString("2021-01-01")) == Err(DateParseError)
    ensures AnnualisedChanges(t, DateString("2021-02-29"), OtherValue) == Err(DateParseError)
  {
    NotADateDoesNotParse();
    MissingLeapDayDoesNotParse();
  }

  /** Once both dates are read, the outcome does not depend on the order they are passed in. */
  lemma OrderIndependent(t: Table, start: DateArg, final: DateArg)
    requires ResolveDates(start, final).Ok?
    ensures ResolveDates(final, start).Ok?
    ensures AnnualisedChanges(t, start, final) == AnnualisedChanges(t, final, start)
  {
  }

  /** The call fails for lack of a row exactly when no row is on or after the later date. */
  lemma OutOfRangeExactly(t: Table, start: DateArg, final: DateArg)
    requires ResolveDates(start, final).Ok?
    ensures var (lo, hi) := OrderedDates(ResolveDates(start, final).value.0, ResolveDates(start, final).value.1);
      var r := AnnualisedChanges(t, start, final);
      (r.Err? && r.error.NoRowOnOrAfter?) <==> forall k :: 0 <= k < |t.rows| ==> t.rows[k].date < hi
  {
  }

  /** A later boundary never selects an earlier row. */
  lemma SelectionMonotone(rows: seq<Row>, a: int, b: int)
    requires a <= b && FirstAtOrAfter(rows, b).Some?
    ensures FirstAtOrAfter(rows, a).Some?
    ensures FirstAtOrAfter(rows, a).value <= FirstAtOrAfter(rows, b).value
  {
  }

  predicate Chronological(rows: seq<Row>) {
    forall i, j :: 0 <= i < j < |rows| ==> rows[i].date <= rows[j].date
  }

  /**
   * On a table in date order the selected row is the nearest observation on
   * or after the boundary, and the row on the boundary itself when there is one.
   */
  lemma SelectionIsNearest(rows: seq<Row>, boundary: int)
    requires Chronological(rows) && FirstAtOrAfter(rows, boundary).Some?
    ensures forall k :: 0 <= k < |rows| && rows[k].date >= boundary ==>
      rows[FirstAtOrAfter(rows, boundary).value].date <= rows[k].date
    ensures (exists k :: 0 <= k < |rows| && rows[k].date == boundary) ==>
      rows[FirstAtOrAfter(rows, boundary).value].date == boundary
  {
  }

  /** For a positive start value and positive time, the rate has the sign of the price move. */
  lemma AnnualisedChangeSign(start: real, stop: real, years: real)
    requires start > 0.0 && years > 0.0
    ensures AnnualisedChange(start, stop, years) > 0.0 <==> stop > start
    ensures AnnualisedChange(start, stop, years) == 0.0 <==> stop == start
  {
  }

  /**
   * A successful call reports every column, in column order, with the change
   * between the first rows on or after the earlier and the later date, over
   * a positive number of years (a same-day call succeeds only on a table
   * without columns, with no changes).
   */
  lemma SuccessUsesSelectedRows(t: Table, start: DateArg, final: DateArg)
    requires AnnualisedChanges(t, start, final).Ok?
    ensures ResolveDates(start, final).Ok?
    ensures var (lo, hi) := OrderedDates(ResolveDates(start, final).value.0, ResolveDates(start, final).value.1);
      && (lo < hi || |t.columns| == 0)
      && FirstAtOrAfter(t.rows, lo).Some? && FirstAtOrAfter(t.rows, hi).Some?
      && var a := t.rows[FirstAtOrAfter(t.rows, lo).value];
         var b := t.rows[FirstAtOrAfter(t.rows, hi).value];
         var changes := AnnualisedChanges(t, start, final).value;
         && |changes| == |t.columns|
         && forall k :: 0 <= k < |t.columns| ==>
              && Defined(t.columns[k], a, b)
              && changes[k] == Change(t.columns[k],
                   AnnualisedChange(a.values[t.columns[k]], b.values[t.columns[k]], YearFraction(lo, hi)))
  {
  }

  lemma WorkedExampleDigits()
    ensures NumberValue("2020") == 2020 && NumberValue("2021") == 2021 && NumberValue("01") == 1
  {
    assert "2020"[..3] == "202" && "2021"[..3] == "202" && "202"[..2] == "20" && "20"[..1] == "2" && "2"[..0] == "";
    assert "01"[..1] == "0" && "0"[..0] == "";
  }

  lemma WorkedExampleParses()
    ensures ParseIso("2020-01-01") == Some(Date(2020, 1, 1))
    ensures ParseIso("2021-01-01") == Some(Date(2021, 1, 1))
  {
    var a, b := "2020-01-01", "2021-01-01";
    assert a[..4] == "2020" && a[5..7] == "01" && a[8..] == "01";
    assert b[..4] == "2021" && b[5..7] == "01" && b[8..] == "01";
    WorkedExampleDigits();
  }

  /** The two date strings of the worked example and their ordinal days. */
  lemma WorkedExampleDates()
    ensures Classify(DateString("2020-01-01")) == Ok(737425)
    ensures Classify(DateString("2021-01-01")) == Ok(737791)
  {
    WorkedExampleParses();
    assert Ordinal(Date(2020, 1, 1)) == 737425;
    assert Ordinal(Date(2021, 1, 1)) == 737791;
  }

  /** The worked example: 100 on 2020-01-01 and 110 on 2021-01-01 is 10 percent over 366 days. */
  lemma WorkedExampleChanges()
    ensures ColumnChanges(["CA", "NY"], Row(737425, map["CA" := 100.0, "NY" := 200.0]),
                          Row(737791, map["CA" := 110.0, "NY" := 190.0]), 366.0 / 365.25)
        == Ok([Change("CA", 3652.5 / 366.0), Change("NY", -1826.25 / 366.0)])
  {
    var start := Row(737425, map["CA" := 100.0, "NY" := 200.0]);
    var stop := Row(737791, map["CA" := 110.0, "NY" := 190.0]);
    var years := 366.0 / 365.25;
    assert AnnualisedChange(100.0, 110.0, years) == 3652.5 / 366.0 by {
      assert AnnualisedChange(100.0, 110.0, years) == 10.0 / years;
    }
    assert AnnualisedChange(200.0, 190.0, years) == -1826.25 / 366.0 by {
      assert AnnualisedChange(200.0, 190.0, years) == -5.0 / years;
    }
    var columns := ["CA", "NY"];
    assert Defined(columns[0], start, stop) && Defined(columns[1], start, stop);
    var r := ColumnChanges(columns, start, stop, years);
    assert r.value == [r.value[0], r.value[1]];
  }

  lemma WorkedExampleRows(rows: seq<Row>)
    requires |rows| == 2 && rows[0].date == 737425 && rows[1].date == 737791
    ensures FirstAtOrAfter(rows, 737425) == Some(0) && FirstAtOrAfter(rows, 737791) == Some(1)
  {
    assert rows[1..][0] == rows[1];
  }

  lemma WorkedExample()
    ensures var t := Table(["CA", "NY"], [Row(737425, map["CA" := 100.0, "NY" := 200.0]),
                                          Row(737791, map["CA" := 110.0, "NY" := 190.0])]);
      AnnualisedChanges(t, DateString("2020-01-01"), DateString("2021-01-01"))
        == Ok([Change("CA", 3652.5 / 366.0), Change("NY", -1826.25 / 366.0)])
  {
    var t := Table(["CA", "NY"], [Row(737425, map["CA" := 100.0, "NY" := 200.0]),
                                  Row(737791, map["CA" := 110.0, "NY" := 190.0])]);
    WorkedExampleDates();
    WorkedExampleRows(t.rows);
    WorkedExampleChanges();
    assert YearFraction(737425, 737791) == 366.0 / 365.25;
  }

  /** Three changes of 5, 20 and -3 percent can only be reported as 20, 5, -3. */
  lemma SortExample(r: seq<Change>)
    requires SortedDescending(r)
    requires multiset(r) == multiset([Change("A", 5.0), Change("B", 20.0), Change("C", -3.0)])
    ensures r == [Change("B", 20.0), Change("A", 5.0), Change("C", -3.0)]
  {
  }
}
