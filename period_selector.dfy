/** get_latest_two_dates (on_search_dashboard.py:25-27): the distinct
    'searched_date' strings, sorted by the date strptime reads from them,
    and the last two of them. */
module PeriodSelector {
  import opened Records
  import opened Seqs
  import opened Dedupe

  /** The 'searched_date' column. */
  function DateColumn(df: seq<Record>): seq<string>
  {
    seq(|df|, i requires 0 <= i < |df| => SearchedDate(df[i]))
  }

  /** The set of distinct 'searched_date' values. */
  function DistinctDates(df: seq<Record>): set<string>
  {
    set r | r in df :: SearchedDate(r)
  }

  function Identity(s: string): string
  {
    s
  }

  /** Series.unique(): every value once, in order of first appearance. */
  function Unique(s: seq<string>): (u: seq<string>)
    ensures NoDuplicates(u)
    ensures forall x :: x in u <==> x in s
  {
    DropDuplicatesKeys(s, Identity);
    assert forall x :: x in s ==> Identity(x) in KeysOf(s, Identity);
    DropDuplicates(s, Identity)
  }

  /** Chronological order of two 'dd-mm-yyyy' strings, as the sort key
      strptime(x, '%d-%m-%Y') orders them. */
  predicate Earlier(a: string, b: string)
    ensures Earlier(a, b) ==> a != b
  {
    |a| == 10 && |b| == 10 && Before(Parse(a), Parse(b))
  }

  ghost predicate AllDateStrings(s: seq<string>)
  {
    forall x :: x in s ==> IsDateString(x)
  }

  ghost predicate StrictlyChronological(s: seq<string>)
  {
    forall i, j :: 0 <= i < j < |s| ==> Earlier(s[i], s[j])
  }

  /** Two different date strings are two different days, one before the other. */
  lemma EarlierTotal(a: string, b: string)
    requires IsDateString(a) && IsDateString(b) && a != b
    ensures Earlier(a, b) || Earlier(b, a)
  {
  }

  lemma EarlierTransitive(a: string, b: string, c: string)
    requires Earlier(a, b) && Earlier(b, c)
    ensures Earlier(a, c)
  {
  }

  /** A date before every entry of a chronological list can lead it. */
  lemma ConsChronological(x: string, s: seq<string>)
    requires StrictlyChronological(s)
    requires forall y :: y in s ==> Earlier(x, y)
    ensures StrictlyChronological([x] + s)
  {
    var r := [x] + s;
    forall i, j | 0 <= i < j < |r| ensures Earlier(r[i], r[j]) {
      if i == 0 {
        assert r[j] == s[j - 1] && s[j - 1] in s;
      } else {
        assert r[i] == s[i - 1] && r[j] == s[j - 1];
      }
    }
  }

  /** One step of insertion sort on date strings. */
  function Insert(x: string, s: seq<string>): (r: seq<string>)
    requires IsDateString(x) && AllDateStrings(s) && x !in s
    requires StrictlyChronological(s)
    ensures StrictlyChronological(r)
    ensures |r| == |s| + 1
    ensures forall y :: y in r <==> y in s || y == x
  {
    if s == [] then [x]
    else if Earlier(x, s[0]) then
      assert forall y | y in s :: Earlier(x, y) by {
        forall y | y in s ensures Earlier(x, y) {
          var j :| 0 <= j < |s| && s[j] == y;
          if j > 0 {
            EarlierTransitive(x, s[0], y);
          }
        }
      }
      ConsChronological(x, s);
      [x] + s
    else
      assert s[0] in s;
      EarlierTotal(x, s[0]);
      var rest := Insert(x, s[1..]);
      assert forall y | y in rest :: Earlier(s[0], y) by {
        forall y | y in rest ensures Earlier(s[0], y) {
          if y != x {
            var j :| 0 <= j < |s[1..]| && s[1..][j] == y;
            assert s[j + 1] == y;
          }
        }
      }
      ConsChronological(s[0], rest);
      [s[0]] + rest
  }

  /** sorted(dates, key=strptime) on distinct date strings. */
  function SortByDate(s: seq<string>): (r: seq<string>)
    requires AllDateStrings(s) && NoDuplicates(s)
    ensures StrictlyChronological(r)
    ensures |r| == |s|
    ensures forall y :: y in r <==> y in s
  {
    if s == [] then []
    else
      assert s[0] !in s[1..];
      Insert(s[0], SortByDate(s[1..]))
  }

  /** The column holds exactly the distinct dates. */
  lemma DateColumnValues(df: seq<Record>)
    ensures forall x :: x in DateColumn(df) <==> x in DistinctDates(df)
  {
    var col := DateColumn(df);
    forall x ensures x in col <==> x in DistinctDates(df) {
      if x in col {
        var i :| 0 <= i < |col| && col[i] == x;
        assert df[i] in df;
      }
      if x in DistinctDates(df) {
        var r :| r in df && SearchedDate(r) == x;
        var i :| 0 <= i < |df| && df[i] == r;
        assert col[i] == x;
      }
    }
  }

  /** Every distinct date is a well-formed date string. */
  lemma DistinctDatesAreDateStrings(df: seq<Record>)
    ensures forall x :: x in DistinctDates(df) ==> IsDateString(x)
  {
    forall x | x in DistinctDates(df) ensures IsDateString(x) {
      var r :| r in df && SearchedDate(r) == x;
      FormatIsDateString(r.searchedOn);
    }
  }

  /** The unique dates of the column: no repeats, exactly the distinct dates. */
  lemma UniqueDates(df: seq<Record>)
    ensures NoDuplicates(Unique(DateColumn(df)))
    ensures forall x :: x in Unique(DateColumn(df)) <==> x in DistinctDates(df)
    ensures |Unique(DateColumn(df))| == |DistinctDates(df)|
    ensures AllDateStrings(Unique(DateColumn(df)))
  {
    var col := DateColumn(df);
    var u := Unique(col);
    DropDuplicatesKeys(col, Identity);
    assert forall x :: x in KeysOf(u, Identity) <==> x in u;
    assert forall x :: x in KeysOf(col, Identity) <==> x in col;
    DateColumnValues(df);
    DistinctDatesAreDateStrings(df);
    NoDuplicatesCard(u);
    assert (set x | x in u) == DistinctDates(df);
  }

  /** dates[-2:] if len(dates) >= 2 else dates. */
  function LastTwo(s: seq<string>): (last: seq<string>)
    ensures |last| == if |s| >= 2 then 2 else |s|
    ensures last == s[|s| - |last|..]
  {
    if |s| >= 2 then s[|s| - 2..] else s
  }

  /** On a strictly chronological list, the last two entries are the two
      latest dates: every other entry lies before both. */
  lemma LastTwoOfChronological(s: seq<string>)
    requires StrictlyChronological(s)
    ensures |LastTwo(s)| == if |s| >= 2 then 2 else |s|
    ensures forall d :: d in LastTwo(s) ==> d in s
    ensures StrictlyChronological(LastTwo(s))
    ensures forall d :: d in s && d !in LastTwo(s) ==> Earlier(d, LastTwo(s)[0])
    ensures forall d :: d in s && d != s[|s| - 1] ==> Earlier(d, LastTwo(s)[|LastTwo(s)| - 1])
  {
    var t := LastTwo(s);
    forall d | d in s && d !in t ensures Earlier(d, t[0]) {
      var k :| 0 <= k < |s| && s[k] == d;
      assert k < |s| - 2;
    }
    forall d | d in s && d != s[|s| - 1] ensures Earlier(d, t[|t| - 1]) {
      var k :| 0 <= k < |s| && s[k] == d;
    }
  }

  /** get_latest_two_dates: as many dates as exist up to two, distinct dates
      of the input in strictly chronological order, and every other date of
      the input lies before them. */
  function GetLatestTwoDates(df: seq<Record>): (dates: seq<string>)
    ensures |dates| == if |DistinctDates(df)| >= 2 then 2 else |DistinctDates(df)|
    ensures forall d :: d in dates ==> d in DistinctDates(df)
    ensures StrictlyChronological(dates)
    ensures forall d :: d in DistinctDates(df) && d !in dates ==> Earlier(d, dates[0])
    ensures forall d :: d in DistinctDates(df) && d != dates[|dates| - 1] ==> Earlier(d, dates[|dates| - 1])
  {
    UniqueDates(df);
    var sorted := SortByDate(Unique(DateColumn(df)));
    LastTwoOfChronological(sorted);
    LastTwo(sorted)
  }

  /** Chronological order is a strict order: never both ways, never a
      string before itself. */
  lemma EarlierAsymmetric(a: string, b: string)
    requires Earlier(a, b)
    ensures !Earlier(b, a) && a != b
  {
  }

  /** Up to two chronologically ordered dates drawn from a set of two dates,
      d1 before d2, as many as the set has, are d1 then d2. */
  lemma OrderedPair(dates: seq<string>, dateSet: set<string>, d1: string, d2: string)
    requires dateSet == {d1, d2} && Earlier(d1, d2)
    requires |dates| == if |dateSet| >= 2 then 2 else |dateSet|
    requires forall d :: d in dates ==> d in dateSet
    requires StrictlyChronological(dates)
    ensures dates == [d1, d2]
  {
    EarlierAsymmetric(d1, d2);
    assert |{d1, d2}| == 2;
    assert dates[0] in dates && dates[1] in dates;
    EarlierAsymmetric(dates[0], dates[1]);
  }

  /** With exactly two distinct dates, yesterday is the earlier one and
      today the later one. */
  lemma TwoDatesInOrder(df: seq<Record>, d1: string, d2: string)
    requires DistinctDates(df) == {d1, d2} && Earlier(d1, d2)
    ensures GetLatestTwoDates(df) == [d1, d2]
  {
    OrderedPair(GetLatestTwoDates(df), DistinctDates(df), d1, d2);
  }
}
