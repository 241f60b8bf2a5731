/**
 * Date headers of the notification history (Ax-Shell/modules/notifications.py, `get_ordinal`,
 * `get_date_header` and the separator placement of `_do_rebuild_with_separators`). Dates are
 * proleptic Gregorian dates as in Python's `datetime`; "now" is a parameter; month names are the
 * English ones the code selects by switching to the en_US locale.
 */
module DateHeaders {
  import opened Wrappers
  import opened Text

  // ---------------------------------------------------------------- calendar

  datatype CalendarDate = CalendarDate(year: int, month: int, day: int)

  predicate IsLeap(y: int) {
    y % 4 == 0 && (y % 100 != 0 || y % 400 == 0)
  }

  function DaysInMonth(y: int, m: int): (n: int)
    requires 1 <= m <= 12
    ensures 28 <= n <= 31
  {
    if m == 2 then (if IsLeap(y) then 29 else 28)
    else if m == 4 || m == 6 || m == 9 || m == 11 then 30
    else 31
  }

  predicate ValidDate(d: CalendarDate) {
    d.year >= 1 && 1 <= d.month <= 12 && 1 <= d.day <= DaysInMonth(d.year, d.month)
  }

  /** A `datetime.date`: a day that exists in the calendar. */
  type Date = d: CalendarDate | ValidDate(d) witness CalendarDate(1, 1, 1)

  /** `d + timedelta(days=1)`. */
  function NextDay(d: Date): (r: Date)
    ensures r != d
  {
    if d.day < DaysInMonth(d.year, d.month) then CalendarDate(d.year, d.month, d.day + 1)
    else if d.month < 12 then CalendarDate(d.year, d.month + 1, 1)
    else CalendarDate(d.year + 1, 1, 1)
  }

  /** `d - timedelta(days=1)`, defined for every day after 1 January of year 1. */
  function PrevDay(d: Date): Date
    requires d != CalendarDate(1, 1, 1)
  {
    if d.day > 1 then CalendarDate(d.year, d.month, d.day - 1)
    else if d.month > 1 then CalendarDate(d.year, d.month - 1, DaysInMonth(d.year, d.month - 1))
    else CalendarDate(d.year - 1, 12, 31)
  }

  /** Going forward a day and back again returns the same day. */
  lemma PrevOfNext(d: Date)
    ensures NextDay(d) != CalendarDate(1, 1, 1)
    ensures PrevDay(NextDay(d)) == d
  {
  }

  /** Going back a day and forward again returns the same day. */
  lemma NextOfPrev(d: Date)
    requires d != CalendarDate(1, 1, 1)
    ensures NextDay(PrevDay(d)) == d
  {
  }

  /** "Yesterday" as the code computes it (`today - timedelta(days=1)`) is the day before today. */
  lemma YesterdayIsPrevDay(d: Date, today: Date)
    requires today != CalendarDate(1, 1, 1)
    ensures d == PrevDay(today) <==> NextDay(d) == today
  {
    NextOfPrev(today);
    if NextDay(d) == today {
      PrevOfNext(d);
    }
  }

  /** A `datetime`: a day and the time within it, in microseconds after midnight. */
  datatype DateTime = DateTime(date: Date, micros: nat)

  /** `a > b` on datetimes. */
  predicate Later(a: DateTime, b: DateTime) {
    if a.date.year != b.date.year then a.date.year > b.date.year
    else if a.date.month != b.date.month then a.date.month > b.date.month
    else if a.date.day != b.date.day then a.date.day > b.date.day
    else a.micros > b.micros
  }

  // ---------------------------------------------------------------- header text

  /** `get_ordinal(n)`: the English ordinal suffix of a day number. */
  function Ordinal(n: nat): (r: string)
    ensures |r| == 2 && r in ["st", "nd", "rd", "th"]
    ensures r != "th" ==> !(11 <= n % 100 <= 13) && 1 <= n % 10 <= 3
  {
    if 11 <= n % 100 <= 13 then "th"
    else if n % 10 == 1 then "st"
    else if n % 10 == 2 then "nd"
    else if n % 10 == 3 then "rd"
    else "th"
  }

  /** The suffix of every day of a month, listed independently of the rule. */
  lemma OrdinalOfDays(n: nat)
    requires 1 <= n <= 31
    ensures Ordinal(n) == (if n == 1 || n == 21 || n == 31 then "st"
                           else if n == 2 || n == 22 then "nd"
                           else if n == 3 || n == 23 then "rd"
                           else "th")
  {
  }

  /** `strftime("%B")` in the en_US locale. */
  function MonthName(m: int): (r: string)
    requires 1 <= m <= 12
    ensures |r| >= 3 && r[0] in "JFMASOND" && ',' !in r
  {
    ["January", "February", "March", "April", "May", "June", "July", "August", "September",
     "October", "November", "December"][m - 1]
  }

  /** "May 5th": the month, a space, the day and its ordinal; it starts with a month's initial. */
  function DayLabel(d: Date): (r: string)
    ensures |r| >= 3 && r[0] in "JFMASOND" && ',' !in r
  {
    MonthName(d.month) + " " + NatToString(d.day) + Ordinal(d.day)
  }

  /**
   * A day label reads back: after the month name and a space come the day's digits, then its
   * two-letter suffix.
   */
  lemma DayLabelReadsBack(d: Date)
    ensures var r := DayLabel(d); var m := MonthName(d.month);
      && |r| >= |m| + 4 && r[..|m| + 1] == m + " " && r[|r| - 2..] == Ordinal(d.day)
      && AllDigits(r[|m| + 1..|r| - 2]) && DigitsValue(r[|m| + 1..|r| - 2]) == d.day
  {
    var r := DayLabel(d);
    var m := MonthName(d.month);
    var digits := NatToString(d.day);
    assert r == m + " " + digits + Ordinal(d.day);
    assert r[..|m| + 1] == m + " ";
    assert r[|m| + 1..|r| - 2] == digits;
    DigitsValueOfNat(d.day);
  }

  /** `get_date_header(dt)` with `datetime.now()` passed as `now`. */
  function DateHeader(dt: DateTime, now: DateTime): (r: string)
    ensures r == "Today" <==> dt.date == now.date
    ensures r == "Yesterday" <==> dt.date != now.date && NextDay(dt.date) == now.date
  {
    if dt.date == now.date then "Today"
    else if NextDay(dt.date) == now.date then "Yesterday"
    else
      var first := DayLabel(dt.date);
      LabelWithYear(first, dt.date.year, dt.date.year == now.date.year);
      if dt.date.year == now.date.year then first else first + ", " + NatToString(dt.date.year)
  }

  /**
   * An older header is the day label alone within the current year, and the day label, a comma
   * and the year otherwise: it carries a comma exactly when the day lies in another year.
   */
  lemma HeaderShowsOtherYear(dt: DateTime, now: DateTime)
    requires dt.date != now.date && NextDay(dt.date) != now.date
    ensures var r := DateHeader(dt, now);
      && r == DayLabel(dt.date) + (if dt.date.year == now.date.year then "" else ", " + NatToString(dt.date.year))
      && StartsWith(r, DayLabel(dt.date))
      && (',' in r <==> dt.date.year != now.date.year)
      && (dt.date.year != now.date.year ==> EndsWith(r, ", " + NatToString(dt.date.year)))
  {
    var first := DayLabel(dt.date);
    LabelWithYear(first, dt.date.year, dt.date.year == now.date.year);
  }

  /** A comma-free label, followed by ", <year>" only outside the current year. */
  lemma LabelWithYear(first: string, year: nat, sameYear: bool)
    requires first != [] && ',' !in first
    ensures var r := first + (if sameYear then "" else ", " + NatToString(year));
      && r == (if sameYear then first else first + ", " + NatToString(year))
      && r != [] && r[0] == first[0] && StartsWith(r, first)
      && (',' in r <==> !sameYear)
      && (!sameYear ==> EndsWith(r, ", " + NatToString(year)))
  {
    if sameYear {
      assert first + "" == first;
    } else {
      var r := first + ", " + NatToString(year);
      assert first + (", " + NatToString(year)) == r;
      assert r[..|first|] == first;
      assert r[|first|] == ',';
      assert r[|first|..] == ", " + NatToString(year);
    }
  }


  // ---------------------------------------------------------------- separators

  /** A row of the history list: a date separator or a notification. */
  datatype Row<T> = Separator(header: string) | Entry(item: T)

  /**
   * The loop of `_do_rebuild_with_separators` over already sorted items: a separator is emitted
   * whenever an item's header differs from the header of the last separator (`current`).
   */
  function Group<T>(xs: seq<T>, headerOf: T -> string, current: Option<string>): seq<Row<T>> {
    if xs == [] then []
    else
      var h := headerOf(xs[0]);
      (if Some(h) != current then [Separator(h)] else []) + [Entry(xs[0])] + Group(xs[1..], headerOf, Some(h))
  }

  /** The items of the rows, in order. */
  function Entries<T>(rows: seq<Row<T>>): seq<T> {
    if rows == [] then []
    else (if rows[0].Entry? then [rows[0].item] else []) + Entries(rows[1..])
  }

  /** The header of the last separator among the first `k` rows, or `current` if there is none. */
  function HeaderBefore<T>(rows: seq<Row<T>>, k: nat, current: Option<string>): Option<string>
    requires k <= |rows|
  {
    if k == 0 then current
    else if rows[k - 1].Separator? then Some(rows[k - 1].header)
    else HeaderBefore(rows, k - 1, current)
  }

  lemma {:induction false} EntriesConcat<T>(a: seq<Row<T>>, b: seq<Row<T>>)
    ensures Entries(a + b) == Entries(a) + Entries(b)
    decreases |a|
  {
    if a == [] {
      assert a + b == b;
    } else {
      assert (a + b)[0] == a[0];
      assert (a + b)[1..] == a[1..] + b;
      EntriesConcat(a[1..], b);
    }
  }

  /** Grouping keeps every item, in the order given. */
  lemma {:induction false} GroupEntries<T>(xs: seq<T>, headerOf: T -> string, current: Option<string>)
    ensures Entries(Group(xs, headerOf, current)) == xs
    decreases |xs|
  {
    if xs != [] {
      var h := headerOf(xs[0]);
      var sep: seq<Row<T>> := if Some(h) != current then [Separator(h)] else [];
      GroupEntries(xs[1..], headerOf, Some(h));
      EntriesConcat(sep + [Entry(xs[0])], Group(xs[1..], headerOf, Some(h)));
      EntriesConcat(sep, [Entry(xs[0])]);
      assert xs == [xs[0]] + xs[1..];
    }
  }

  lemma {:induction false} HeaderBeforeConcat<T>(a: seq<Row<T>>, b: seq<Row<T>>, k: nat, current: Option<string>)
    requires k <= |b|
    ensures HeaderBefore(a + b, |a| + k, current) == HeaderBefore(b, k, HeaderBefore(a, |a|, current))
    decreases k
  {
    if k > 0 {
      assert (a + b)[|a| + k - 1] == b[k - 1];
      HeaderBeforeConcat(a, b, k - 1, current);
    } else {
      HeaderBeforePrefix(a, b, |a|, current);
    }
  }

  lemma {:induction false} HeaderBeforePrefix<T>(a: seq<Row<T>>, b: seq<Row<T>>, k: nat, current: Option<string>)
    requires k <= |a|
    ensures HeaderBefore(a + b, k, current) == HeaderBefore(a, k, current)
    decreases k
  {
    if k > 0 {
      assert (a + b)[k - 1] == a[k - 1];
      HeaderBeforePrefix(a, b, k - 1, current);
    }
  }

  /**
   * Every notification row sits under the separator of its own date header, and a separator
   * appears exactly where the header changes: it is followed by a notification carrying that
   * header and differs from the header in force before it.
   */
  ghost predicate WellGrouped<T>(rows: seq<Row<T>>, headerOf: T -> string, current: Option<string>) {
    forall k :: 0 <= k < |rows| ==> RowPlaced(rows, k, headerOf, current)
  }

  ghost predicate RowPlaced<T>(rows: seq<Row<T>>, k: nat, headerOf: T -> string, current: Option<string>)
    requires k < |rows|
  {
    (rows[k].Entry? ==> HeaderBefore(rows, k, current) == Some(headerOf(rows[k].item)))
    && (rows[k].Separator? ==>
          k + 1 < |rows| && rows[k + 1].Entry? && headerOf(rows[k + 1].item) == rows[k].header
          && HeaderBefore(rows, k, current) != Some(rows[k].header))
  }

  lemma {:induction false} GroupHeaders<T>(xs: seq<T>, headerOf: T -> string, current: Option<string>)
    ensures WellGrouped(Group(xs, headerOf, current), headerOf, current)
    decreases |xs|
  {
    var rows := Group(xs, headerOf, current);
    if xs != [] {
      var h := headerOf(xs[0]);
      var sep: seq<Row<T>> := if Some(h) != current then [Separator(h)] else [];
      var head := sep + [Entry(xs[0])];
      var rest := Group(xs[1..], headerOf, Some(h));
      assert rows == head + rest;
      GroupHeaders(xs[1..], headerOf, Some(h));
      assert WellGrouped(rest, headerOf, Some(h));
      assert HeaderBefore(head, |head|, current) == Some(h);
      forall k | 0 <= k < |rows|
        ensures RowPlaced(rows, k, headerOf, current)
      {
        if k < |head| {
          assert rows[k] == head[k];
          HeaderBeforePrefix(head, rest, k, current);
          if rows[k].Separator? {
            assert k == 0 && rows[1] == Entry(xs[0]);
          }
        } else {
          var j := k - |head|;
          HeaderBeforeConcat(head, rest, j, current);
          assert rows[k] == rest[j];
          assert RowPlaced(rest, j, headerOf, Some(h));
          if rows[k].Separator? {
            assert j + 1 < |rest|;
            assert rows[k + 1] == rest[j + 1];
          }
        }
      }
    }
  }
}
