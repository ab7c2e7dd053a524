/** The rows of the on-search export and the calendar dates in them.
    A raw Row is one line of the uploaded sheet with 'Searched On' already
    through the tolerant timestamp parser (None where it failed). A Record
    is a row that survived normalisation: date, outlet and buyer app present. */
module Records {

  datatype Option<T> = None | Some(value: T)

  /** A day of the calendar: 'Searched On' with the time of day dropped. */
  datatype Date = Date(day: int, month: int, year: int)

  /** pandas timestamps lie between the years 1677 and 2262, so %Y always
      prints four digits. */
  predicate ValidDate(d: Date)
  {
    1 <= d.day <= 31 && 1 <= d.month <= 12 && 1677 <= d.year <= 2262
  }

  type CalendarDate = d: Date | ValidDate(d) witness Date(1, 1, 1970)

  /** One row of the sheet: 'Searched On', 'Outlet Name', 'Buyer App',
      'City Code', 'Status', 'Message'. */
  datatype Row = Row(searched: Option<CalendarDate>, outlet: Option<string>, app: Option<string>,
                     city: Option<string>, status: Option<string>, message: Option<string>)

  /** A row that has a date, an outlet and a buyer app. */
  datatype Record = Record(searchedOn: CalendarDate, outlet: string, app: string,
                           city: Option<string>, status: Option<string>, message: Option<string>)

  function Digit(n: int): char
    requires 0 <= n <= 9
  {
    ('0' as int + n) as char
  }

  function DigitValue(c: char): int
  {
    c as int - '0' as int
  }

  function TwoDigits(n: int): string
    requires 0 <= n <= 99
  {
    [Digit(n / 10), Digit(n % 10)]
  }

  function FourDigits(n: int): string
    requires 0 <= n <= 9999
  {
    [Digit(n / 1000), Digit(n / 100 % 10), Digit(n / 10 % 10), Digit(n % 10)]
  }

  /** strftime('%d-%m-%Y'). */
  function Format(d: CalendarDate): (s: string)
    ensures |s| == 10 && s[2] == '-' && s[5] == '-'
  {
    TwoDigits(d.day) + "-" + TwoDigits(d.month) + "-" + FourDigits(d.year)
  }

  /** strptime(s, '%d-%m-%Y') on a string of that shape. */
  function Parse(s: string): (d: Date)
    requires |s| == 10
    ensures (forall i :: 0 <= i < 10 && i != 2 && i != 5 ==> '0' <= s[i] <= '9') ==>
              0 <= d.day <= 99 && 0 <= d.month <= 99 && 0 <= d.year <= 9999
  {
    Date(DigitValue(s[0]) * 10 + DigitValue(s[1]),
         DigitValue(s[3]) * 10 + DigitValue(s[4]),
         DigitValue(s[6]) * 1000 + DigitValue(s[7]) * 100 + DigitValue(s[8]) * 10 + DigitValue(s[9]))
  }

  /** The four decimal digits of a year put back together give the year. */
  lemma FourDigitsValue(y: int)
    requires 0 <= y <= 9999
    ensures y / 1000 * 1000 + y / 100 % 10 * 100 + y / 10 % 10 * 10 + y % 10 == y
  {
    var a := y / 10;
    var b := a / 10;
    assert y == a * 10 + y % 10;
    assert a == b * 10 + a % 10;
    assert b == b / 10 * 10 + b % 10;
    assert b == y / 100;
    assert b / 10 == y / 1000;
  }

  /** Reading back a formatted date gives the date. */
  lemma ParseFormat(d: CalendarDate)
    ensures Parse(Format(d)) == d
  {
    var s := Format(d);
    assert s[0] == Digit(d.day / 10) && s[1] == Digit(d.day % 10);
    assert s[3] == Digit(d.month / 10) && s[4] == Digit(d.month % 10);
    assert s[6] == Digit(d.year / 1000) && s[7] == Digit(d.year / 100 % 10);
    assert s[8] == Digit(d.year / 10 % 10) && s[9] == Digit(d.year % 10);
    FourDigitsValue(d.year);
  }

  /** Two days print the same exactly when they are the same day. */
  lemma FormatInjective(d1: CalendarDate, d2: CalendarDate)
    ensures Format(d1) == Format(d2) <==> d1 == d2
  {
    ParseFormat(d1);
    ParseFormat(d2);
  }

  /** A string that strftime('%d-%m-%Y') can have produced. */
  ghost predicate IsDateString(s: string)
  {
    |s| == 10 && ValidDate(Parse(s)) && Format(Parse(s)) == s
  }

  lemma FormatIsDateString(d: CalendarDate)
    ensures IsDateString(Format(d))
  {
    ParseFormat(d);
  }

  /** Chronological order: (year, month, day) compared lexicographically. */
  predicate Before(a: Date, b: Date)
  {
    a.year < b.year || (a.year == b.year && (a.month < b.month || (a.month == b.month && a.day < b.day)))
  }

  /** The 'searched_date' column. */
  function SearchedDate(r: Record): (date: string)
    ensures |date| == 10 && date[2] == '-' && date[5] == '-'
  {
    Format(r.searchedOn)
  }

  /** Distinct values of 'Buyer App'. */
  function Apps(rs: seq<Record>): (apps: set<string>)
    ensures apps == {} <==> rs == []
  {
    var apps := set r | r in rs :: r.app;
    assert rs != [] ==> rs[0].app in apps;
    apps
  }

  /** Distinct values of 'Outlet Name'. */
  function Outlets(rs: seq<Record>): (outlets: set<string>)
    ensures outlets == {} <==> rs == []
  {
    var outlets := set r | r in rs :: r.outlet;
    assert rs != [] ==> rs[0].outlet in outlets;
    outlets
  }

  /** Distinct outlets seen with one buyer app. */
  function OutletsOf(rs: seq<Record>, app: string): (outlets: set<string>)
    ensures outlets <= Outlets(rs)
  {
    set r | r in rs && r.app == app :: r.outlet
  }

  /** An app that does not occur has no outlets: pandas' fillna(0). */
  lemma OutletsOfAbsentApp(rs: seq<Record>, app: string)
    requires app !in Apps(rs)
    ensures OutletsOf(rs, app) == {}
  {
  }

  /** An app that occurs has at least one outlet. */
  lemma OutletsOfPresentApp(rs: seq<Record>, app: string)
    requires app in Apps(rs)
    ensures |OutletsOf(rs, app)| > 0
  {
    var r :| r in rs && r.app == app;
    assert r.outlet in OutletsOf(rs, app);
  }

  /** Adding one row to the rows seen so far: the step of a loop. */
  lemma GroupsSnoc(rs: seq<Record>, x: Record)
    ensures Apps(rs + [x]) == Apps(rs) + {x.app}
    ensures Outlets(rs + [x]) == Outlets(rs) + {x.outlet}
    ensures forall a :: OutletsOf(rs + [x], a) == OutletsOf(rs, a) + (if x.app == a then {x.outlet} else {})
  {
    forall a ensures OutletsOf(rs + [x], a) == OutletsOf(rs, a) + (if x.app == a then {x.outlet} else {}) {
    }
  }
}
