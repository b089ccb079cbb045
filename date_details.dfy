/** `date_details`: the first and last day of the log, reported as `dd/mm/YYYY`
    strings. The `date` column is written with `strftime('%d/%m/%Y')`, and the
    range is taken with `min` and `max` over those strings. */
module DateDetails {
  import opened Wrappers
  import opened Text

  /** A calendar day of the `real_time` stamps. */
  datatype Date = Date(year: nat, month: nat, day: nat)

  predicate IsLeapYear(y: nat) {
    (y % 4 == 0 && y % 100 != 0) || y % 400 == 0
  }

  function DaysInMonth(y: nat, m: nat): nat
    requires 1 <= m <= 12
  {
    if m == 2 then (if IsLeapYear(y) then 29 else 28)
    else if m in {4, 6, 9, 11} then 30
    else 31
  }

  /** A day `strftime('%Y')` writes with four digits. */
  predicate Valid(d: Date) {
    1000 <= d.year <= 9999 && 1 <= d.month <= 12 && 1 <= d.day <= DaysInMonth(d.year, d.month)
  }

  /** `a` is no later than `b`. */
  predicate NotAfter(a: Date, b: Date) {
    a.year < b.year || (a.year == b.year && (a.month < b.month || (a.month == b.month && a.day <= b.day)))
  }

  function Digit(n: nat): (c: char)
    requires n < 10
    ensures IsDigit(c) && c as int - '0' as int == n
  {
    ('0' as int + n) as char
  }

  /** A number below 100 with a leading zero: `%d` and `%m`. */
  function Pad2(n: nat): (s: string)
    requires n < 100
    ensures |s| == 2 && forall i :: 0 <= i < 2 ==> IsDigit(s[i])
  {
    [Digit(n / 10), Digit(n % 10)]
  }

  /** A number below 10000 in four digits: `%Y`. */
  function Pad4(n: nat): (s: string)
    requires n < 10000
    ensures |s| == 4 && forall i :: 0 <= i < 4 ==> IsDigit(s[i])
  {
    [Digit(n / 1000), Digit(n / 100 % 10), Digit(n / 10 % 10), Digit(n % 10)]
  }

  /** `strftime('%d/%m/%Y')`. */
  function Format(d: Date): (s: string)
    requires Valid(d)
    ensures |s| == 10 && s[2] == '/' && s[5] == '/'
  {
    Pad2(d.day) + "/" + Pad2(d.month) + "/" + Pad4(d.year)
  }

  /** Reading a `dd/mm/YYYY` string back into its day; None when it is not one. */
  function ParseDate(s: string): (d: Option<Date>)
    ensures d.Some? ==> Valid(d.value)
  {
    if |s| == 10 && s[2] == '/' && s[5] == '/' &&
       (forall i :: 0 <= i < 10 && i != 2 && i != 5 ==> IsDigit(s[i])) then
      var d := Date(DigitsValue(s[6..]), DigitsValue(s[3..5]), DigitsValue(s[..2]));
      if Valid(d) then Some(d) else None
    else None
  }

  lemma Pad2Value(n: nat)
    requires n < 100
    ensures DigitsValue(Pad2(n)) == n
  {
    var s := Pad2(n);
    assert s[..1][..0] == [];
    assert DigitsValue(s[..1]) == n / 10;
    assert DigitsValue(s) == 10 * (n / 10) + n % 10;
  }

  lemma Pad4Value(n: nat)
    requires n < 10000
    ensures DigitsValue(Pad4(n)) == n
  {
    var s := Pad4(n);
    assert s[..3][..2][..1][..0] == [];
    assert DigitsValue(s[..3][..2][..1]) == n / 1000;
    assert s[..3][..2][..1] == s[..1] && s[..3][..2] == s[..2];
    assert DigitsValue(s[..2]) == 10 * (n / 1000) + n / 100 % 10 == n / 100;
    assert DigitsValue(s[..3]) == 10 * (n / 100) + n / 10 % 10 == n / 10;
    assert DigitsValue(s) == 10 * (n / 10) + n % 10;
  }

  /** The date column loses nothing: every formatted day reads back as itself. */
  lemma ParseFormat(d: Date)
    requires Valid(d)
    ensures ParseDate(Format(d)) == Some(d)
  {
    var s := Format(d);
    assert s[..2] == Pad2(d.day);
    assert s[3..5] == Pad2(d.month);
    assert s[6..] == Pad4(d.year);
    Pad2Value(d.day);
    Pad2Value(d.month);
    Pad4Value(d.year);
  }

  /** The two values `date_details` returns. */
  datatype DateRange = DateRange(startDate: string, endDate: string)

  lemma {:induction false} LexLeReflexive(a: string)
    ensures LexLe(a, a)
  {
    if a != [] {
      LexLeReflexive(a[1..]);
    }
  }

  lemma {:induction false} LexLeTotal(a: string, b: string)
    ensures LexLe(a, b) || LexLe(b, a)
  {
    if a != [] && b != [] && a[0] == b[0] {
      LexLeTotal(a[1..], b[1..]);
    }
  }

  lemma {:induction false} LexLeTransitive(a: string, b: string, c: string)
    requires LexLe(a, b) && LexLe(b, c)
    ensures LexLe(a, c)
  {
    if a != [] && b != [] && c != [] && a[0] == b[0] && b[0] == c[0] {
      LexLeTransitive(a[1..], b[1..], c[1..]);
    }
  }

  /** Python's `min` over strings. */
  function MinString(ss: seq<string>): (m: string)
    requires |ss| > 0
    ensures m in ss && forall i :: 0 <= i < |ss| ==> LexLe(m, ss[i])
  {
    if |ss| == 1 then LexLeReflexive(ss[0]); ss[0]
    else
      var rest := MinString(ss[1..]);
      LexLeTotal(ss[0], rest);
      forall i | 1 <= i < |ss| ensures LexLe(rest, ss[i]) {
        assert ss[i] == ss[1..][i - 1];
      }
      if LexLe(ss[0], rest) then
        forall i | 1 <= i < |ss| ensures LexLe(ss[0], ss[i]) {
          LexLeTransitive(ss[0], rest, ss[i]);
        }
        LexLeReflexive(ss[0]);
        ss[0]
      else rest
  }

  /** Python's `max` over strings. */
  function MaxString(ss: seq<string>): (m: string)
    requires |ss| > 0
    ensures m in ss && forall i :: 0 <= i < |ss| ==> LexLe(ss[i], m)
  {
    if |ss| == 1 then LexLeReflexive(ss[0]); ss[0]
    else
      var rest := MaxString(ss[1..]);
      LexLeTotal(ss[0], rest);
      forall i | 1 <= i < |ss| ensures LexLe(ss[i], rest) {
        assert ss[i] == ss[1..][i - 1];
      }
      if LexLe(rest, ss[0]) then
        forall i | 1 <= i < |ss| ensures LexLe(ss[i], ss[0]) {
          LexLeTransitive(ss[i], rest, ss[0]);
        }
        LexLeReflexive(ss[0]);
        ss[0]
      else rest
  }

  /** `date_details(df['date'])` as written: the smallest and largest string of the column. */
  function DateDetailsAsWritten(column: seq<string>): (r: DateRange)
    requires |column| > 0
    ensures r.startDate in column && r.endDate in column
    ensures forall i :: 0 <= i < |column| ==> LexLe(r.startDate, column[i]) && LexLe(column[i], r.endDate)
  {
    DateRange(MinString(column), MaxString(column))
  }

  /** With days first, string order is not calendar order: a log from 15 December 2023
      to 2 January 2024 is reported as starting on 2 January 2024 and ending on
      15 December 2023. */
  lemma LexicalRangeReversed()
    ensures var first, last := Date(2023, 12, 15), Date(2024, 1, 2);
            Valid(first) && Valid(last) && NotAfter(first, last) && first != last &&
            DateDetailsAsWritten([Format(first), Format(last)]) == DateRange(Format(last), Format(first))
  {
    var first, last := Date(2023, 12, 15), Date(2024, 1, 2);
    assert Format(first) == "15/12/2023";
    assert Format(last) == "02/01/2024";
    var column := [Format(first), Format(last)];
    var r := DateDetailsAsWritten(column);
    assert LexLe(Format(last), Format(first));
    assert !LexLe(Format(first), Format(last));
    assert r.startDate == Format(last) by {
      assert LexLe(r.startDate, column[1]);
    }
    assert r.endDate == Format(first) by {
      assert LexLe(column[0], r.endDate);
    }
  }

  /** The earliest day of a non-empty list. */
  function Earliest(ds: seq<Date>): (e: Date)
    requires |ds| > 0
    ensures e in ds && forall i :: 0 <= i < |ds| ==> NotAfter(e, ds[i])
  {
    if |ds| == 1 then ds[0]
    else
      var rest := Earliest(ds[1..]);
      assert forall i :: 1 <= i < |ds| ==> ds[i] == ds[1..][i - 1];
      if NotAfter(ds[0], rest) then ds[0] else rest
  }

  /** The latest day of a non-empty list. */
  function Latest(ds: seq<Date>): (l: Date)
    requires |ds| > 0
    ensures l in ds && forall i :: 0 <= i < |ds| ==> NotAfter(ds[i], l)
  {
    if |ds| == 1 then ds[0]
    else
      var rest := Latest(ds[1..]);
      assert forall i :: 1 <= i < |ds| ==> ds[i] == ds[1..][i - 1];
      if NotAfter(rest, ds[0]) then ds[0] else rest
  }

  /** The range of the log's days in calendar order, formatted as the column is. */
  function DateRangeOf(days: seq<Date>): (r: DateRange)
    requires |days| > 0 && forall i :: 0 <= i < |days| ==> Valid(days[i])
  {
    DateRange(Format(Earliest(days)), Format(Latest(days)))
  }

  /** `days[i]` is no later and `days[j]` no earlier than any day of the list. */
  predicate Spans(days: seq<Date>, i: int, j: int) {
    0 <= i < |days| && 0 <= j < |days| &&
    forall k :: 0 <= k < |days| ==> NotAfter(days[i], days[k]) && NotAfter(days[k], days[j])
  }

  /** The corrected range starts on a day of the log no later than any other, and
      ends on one no earlier than any other. */
  lemma DateRangeBoundsEveryDay(days: seq<Date>)
    requires |days| > 0 && forall i :: 0 <= i < |days| ==> Valid(days[i])
    ensures exists i, j :: Spans(days, i, j) && DateRangeOf(days) == DateRange(Format(days[i]), Format(days[j]))
  {
    var e, l := Earliest(days), Latest(days);
    var i :| 0 <= i < |days| && days[i] == e;
    var j :| 0 <= j < |days| && days[j] == l;
    assert Spans(days, i, j);
  }

  /** On the example above the corrected range runs from 15 December 2023 to 2 January 2024. */
  lemma CalendarRangeInOrder()
    ensures var first, last := Date(2023, 12, 15), Date(2024, 1, 2);
            Valid(first) && Valid(last) && DateRangeOf([first, last]) == DateRange(Format(first), Format(last))
  {
    var days := [Date(2023, 12, 15), Date(2024, 1, 2)];
    assert Earliest(days) == days[0] by {
      assert NotAfter(Earliest(days), days[0]);
    }
    assert Latest(days) == days[1] by {
      assert NotAfter(days[1], Latest(days));
    }
  }

  /** A cell of the `date` column: a formatted day, or the NaN `strftime` writes for a
      NaT stamp, which is what `to_datetime(errors="coerce")` makes of a `real_time`
      it cannot parse. */
  datatype Cell = Text(s: string) | NaN

  /** What Python's `min` or `max` over the column gives. */
  datatype Extremum = Found(cell: Cell) | TypeError

  predicate AllText(cells: seq<Cell>) {
    forall i :: 0 <= i < |cells| ==> cells[i].Text?
  }

  predicate AllNaN(cells: seq<Cell>) {
    forall i :: 0 <= i < |cells| ==> cells[i].NaN?
  }

  /** The column holds both a formatted day and a NaN. */
  predicate Mixed(cells: seq<Cell>) {
    (exists i :: 0 <= i < |cells| && cells[i].Text?) && (exists j :: 0 <= j < |cells| && cells[j].NaN?)
  }

  /** One comparison of the builtin `min` (`smallest`) or `max`: the kept cell gives way
      to the next one when the next one compares strictly below (above) it. Two strings
      compare by code points; NaN compares false with NaN; a `str` against a `float`
      raises TypeError. */
  function Step(kept: Cell, next: Cell, smallest: bool): Extremum {
    match (kept, next)
    case (Text(a), Text(b)) =>
      Found(if (if smallest then !LexLe(a, b) else !LexLe(b, a)) then next else kept)
    case (NaN, NaN) => Found(kept)
    case _ => TypeError
  }

  /** `min(column)` (`smallest`) or `max(column)`: the first cell, then one comparison per
      later cell, left to right. */
  function PyExtremum(cells: seq<Cell>, smallest: bool): Extremum
    requires |cells| > 0
  {
    if |cells| == 1 then Found(cells[0])
    else
      match PyExtremum(cells[..|cells| - 1], smallest)
      case TypeError => TypeError
      case Found(kept) => Step(kept, cells[|cells| - 1], smallest)
  }

  /** `min`/`max` over the column: on strings only, a string of the column bounding every
      other; on NaN only, NaN; on a column holding both, TypeError. */
  lemma {:induction false} PyExtremumOutcome(cells: seq<Cell>, smallest: bool)
    requires |cells| > 0
    ensures var r := PyExtremum(cells, smallest);
            (AllText(cells) ==>
               r.Found? && r.cell in cells && r.cell.Text? &&
               forall i :: 0 <= i < |cells| ==>
                 if smallest then LexLe(r.cell.s, cells[i].s) else LexLe(cells[i].s, r.cell.s)) &&
            (AllNaN(cells) ==> r == Found(NaN)) &&
            (Mixed(cells) <==> r.TypeError?)
  {
    if |cells| == 1 {
      if cells[0].Text? {
        LexLeReflexive(cells[0].s);
      }
    } else {
      var init, x := cells[..|cells| - 1], cells[|cells| - 1];
      assert cells == init + [x];
      PyExtremumOutcome(init, smallest);
      var r0 := PyExtremum(init, smallest);
      if AllText(cells) {
        var m := r0.cell.s;
        LexLeTotal(m, x.s);
        LexLeReflexive(x.s);
        forall i | 0 <= i < |cells|
          ensures var r := PyExtremum(cells, smallest);
                  if smallest then LexLe(r.cell.s, cells[i].s) else LexLe(cells[i].s, r.cell.s)
        {
          if i < |init| {
            assert cells[i] == init[i];
            if smallest && !LexLe(m, x.s) {
              LexLeTransitive(x.s, m, cells[i].s);
            } else if !smallest && !LexLe(x.s, m) {
              LexLeTransitive(cells[i].s, m, x.s);
            }
          }
        }
      }
      if Mixed(cells) && !Mixed(init) {
        assert init[0] == cells[0];
        assert AllText(init) || AllNaN(init);
      }
      if Mixed(init) {
        var i :| 0 <= i < |init| && init[i].Text?;
        var j :| 0 <= j < |init| && init[j].NaN?;
        assert cells[i] == init[i] && cells[j] == init[j];
      }
    }
  }

  /** A parsed `real_time` stamp: its day, or None for NaT. */
  function CellOf(stamp: Option<Date>): Cell
    requires stamp.Some? ==> Valid(stamp.value)
  {
    if stamp.Some? then Text(Format(stamp.value)) else NaN
  }

  /** The two values `date_details` returns on the cells, or the exception it raises. */
  datatype DateOutcome = Dates(start: Cell, end: Cell) | Raised

  /** The `date` column of a log whose `real_time` stamps parsed to `stamps`. */
  function CellsOf(stamps: seq<Option<Date>>): (cells: seq<Cell>)
    requires forall i :: 0 <= i < |stamps| ==> stamps[i].Some? ==> Valid(stamps[i].value)
    ensures |cells| == |stamps|
    ensures forall i :: 0 <= i < |stamps| ==> cells[i] == CellOf(stamps[i])
    ensures forall i :: 0 <= i < |stamps| ==> (cells[i].Text? <==> stamps[i].Some?) && (cells[i].NaN? <==> stamps[i].None?)
  {
    seq(|stamps|, i requires 0 <= i < |stamps| => CellOf(stamps[i]))
  }

  /** A day next to a NaT stamp is exactly a column mixing strings and NaN. */
  lemma CellsMixed(stamps: seq<Option<Date>>)
    requires forall i :: 0 <= i < |stamps| ==> stamps[i].Some? ==> Valid(stamps[i].value)
    ensures Mixed(CellsOf(stamps)) <==>
              (exists i :: 0 <= i < |stamps| && stamps[i].Some?) && (exists j :: 0 <= j < |stamps| && stamps[j].None?)
  {
    var cells := CellsOf(stamps);
    assert (exists i :: 0 <= i < |cells| && cells[i].Text?) <==> (exists i :: 0 <= i < |stamps| && stamps[i].Some?);
    assert (exists j :: 0 <= j < |cells| && cells[j].NaN?) <==> (exists j :: 0 <= j < |stamps| && stamps[j].None?);
  }

  /** `date_details(df['date'])` as written, on a log whose `real_time` stamps parsed to
      `stamps`: one unparseable stamp beside a parsed one makes `min` raise TypeError, so
      the whole report fails. */
  function DateDetailsOfStamps(stamps: seq<Option<Date>>): (o: DateOutcome)
    requires |stamps| > 0
    requires forall i :: 0 <= i < |stamps| ==> stamps[i].Some? ==> Valid(stamps[i].value)
    ensures o.Raised? <==> (exists i :: 0 <= i < |stamps| && stamps[i].Some?) &&
                           (exists j :: 0 <= j < |stamps| && stamps[j].None?)
    ensures (forall i :: 0 <= i < |stamps| ==> stamps[i].None?) ==> o == Dates(NaN, NaN)
    ensures (forall i :: 0 <= i < |stamps| ==> stamps[i].Some?) ==>
              o.Dates? && o.start.Text? && o.end.Text? &&
              forall i :: 0 <= i < |stamps| ==>
                LexLe(o.start.s, Format(stamps[i].value)) && LexLe(Format(stamps[i].value), o.end.s)
  {
    var cells := CellsOf(stamps);
    PyExtremumOutcome(cells, true);
    PyExtremumOutcome(cells, false);
    CellsMixed(stamps);
    match (PyExtremum(cells, true), PyExtremum(cells, false))
    case (Found(a), Found(b)) => Dates(a, b)
    case _ => Raised
  }

  /** The parsed days of the log, in order, leaving out the NaT stamps. */
  function PresentDays(stamps: seq<Option<Date>>): (days: seq<Date>)
    ensures forall d :: d in days <==> Some(d) in stamps
    ensures |days| <= |stamps|
  {
    if stamps == [] then []
    else
      var init, last := stamps[..|stamps| - 1], stamps[|stamps| - 1];
      assert stamps == init + [last];
      PresentDays(init) + (if last.Some? then [last.value] else [])
  }

  /** `date_details` as intended: the calendar range of the days that parsed, none when
      no stamp parsed. */
  function CorrectedDateDetails(stamps: seq<Option<Date>>): (r: Option<DateRange>)
    requires forall i :: 0 <= i < |stamps| ==> stamps[i].Some? ==> Valid(stamps[i].value)
  {
    var days := PresentDays(stamps);
    if days == [] then None
    else
      assert forall i :: 0 <= i < |days| ==> Some(days[i]) in stamps;
      Some(DateRangeOf(days))
  }

  /** Stamps `i` and `j` hold parsed days no later, and no earlier, than any other
      parsed day. */
  predicate SpansStamps(stamps: seq<Option<Date>>, i: int, j: int) {
    0 <= i < |stamps| && 0 <= j < |stamps| && stamps[i].Some? && stamps[j].Some? &&
    forall k :: 0 <= k < |stamps| && stamps[k].Some? ==>
      NotAfter(stamps[i].value, stamps[k].value) && NotAfter(stamps[k].value, stamps[j].value)
  }

  /** The corrected range exists exactly when some stamp parsed; it runs from a parsed
      day no later than any other to one no earlier than any other, NaT stamps aside. */
  lemma CorrectedDateDetailsBounds(stamps: seq<Option<Date>>)
    requires forall i :: 0 <= i < |stamps| ==> stamps[i].Some? ==> Valid(stamps[i].value)
    ensures CorrectedDateDetails(stamps).Some? <==> exists k :: 0 <= k < |stamps| && stamps[k].Some?
    ensures CorrectedDateDetails(stamps).Some? ==>
      exists i, j :: SpansStamps(stamps, i, j) &&
        CorrectedDateDetails(stamps).value == DateRange(Format(stamps[i].value), Format(stamps[j].value))
  {
    var days := PresentDays(stamps);
    if exists k :: 0 <= k < |stamps| && stamps[k].Some? {
      var k :| 0 <= k < |stamps| && stamps[k].Some?;
      assert stamps[k].value in days;
    }
    if days != [] {
      assert forall i :: 0 <= i < |days| ==> Some(days[i]) in stamps;
      DateRangeBoundsEveryDay(days);
      var a, b :| Spans(days, a, b) && DateRangeOf(days) == DateRange(Format(days[a]), Format(days[b]));
      assert Some(days[a]) in stamps && Some(days[b]) in stamps;
      var i :| 0 <= i < |stamps| && stamps[i] == Some(days[a]);
      var j :| 0 <= j < |stamps| && stamps[j] == Some(days[b]);
      forall k | 0 <= k < |stamps| && stamps[k].Some?
        ensures NotAfter(stamps[i].value, stamps[k].value) && NotAfter(stamps[k].value, stamps[j].value)
      {
        assert stamps[k].value in days;
      }
      assert SpansStamps(stamps, i, j);
    }
  }

  /** A log of two rows whose second `real_time` does not parse: as written `date_details`
      raises, while the corrected range is the one parsed day. */
  lemma MissingStampRaises()
    ensures var stamps := [Some(Date(2023, 12, 15)), None];
            DateDetailsOfStamps(stamps) == Raised &&
            CorrectedDateDetails(stamps) == Some(DateRange("15/12/2023", "15/12/2023"))
  {
    var stamps := [Some(Date(2023, 12, 15)), None];
    assert stamps[0].Some? && stamps[1].None?;
    assert Format(Date(2023, 12, 15)) == "15/12/2023";
    assert stamps[..1] == [Some(Date(2023, 12, 15))] && stamps[..1][..0] == [];
    assert PresentDays(stamps) == [Date(2023, 12, 15)];
  }
}
