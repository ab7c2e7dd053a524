/** buyer_app_summary (on_search_dashboard.py:29-36): split the table by the
    two selected dates, count distinct outlets per buyer app on each, and
    line the two counts up per app with their difference. */
module Coverage {
  import opened Records
  import opened Strings
  import opened Seqs

  /** One line of the comparison table: the app (the index), its outlet
      count on date1 and on date2, and 'Difference'. */
  datatype SummaryRow = SummaryRow(app: string, yesterday: int, today: int, difference: int)

  /** df[df['searched_date'] == date]. */
  function OnDate(df: seq<Record>, date: string): (rows: seq<Record>)
    ensures |rows| <= |df|
  {
    Filter(df, (r: Record) => SearchedDate(r) == date)
  }

  /** df[df['searched_date'] == date] holds exactly the rows of that date. */
  lemma OnDateRows(df: seq<Record>, date: string)
    ensures forall r :: r in OnDate(df, date) <==> r in df && SearchedDate(r) == date
  {
    FilterMembership(df, (r: Record) => SearchedDate(r) == date);
  }

  function SummaryApps(summary: seq<SummaryRow>): set<string>
  {
    set row | row in summary :: row.app
  }

  /** groupby('Buyer App')['Outlet Name'].nunique(): one entry per app that
      occurs, holding the number of distinct outlets seen with it. */
  method OutletCountsByApp(rows: seq<Record>) returns (counts: map<string, int>)
    ensures counts.Keys == Apps(rows)
    ensures forall a :: a in counts ==> counts[a] == |OutletsOf(rows, a)|
  {
    var groups: map<string, set<string>> := map[];
    for i := 0 to |rows|
      invariant groups.Keys == Apps(rows[..i])
      invariant forall a :: a in groups ==> groups[a] == OutletsOf(rows[..i], a)
    {
      var r := rows[i];
      var next := if r.app in groups then groups[r.app := groups[r.app] + {r.outlet}]
                  else groups[r.app := {r.outlet}];
      GroupsStep(rows[..i], r, groups, next);
      assert rows[..i + 1] == rows[..i] + [r];
      groups := next;
    }
    assert rows[..|rows|] == rows;
    counts := map a | a in groups :: |groups[a]|;
  }

  /** One step of the grouping loop: adding row r's outlet to its app's
      group keeps the groups equal to the distinct outlets per app. */
  lemma GroupsStep(rs: seq<Record>, r: Record, groups: map<string, set<string>>, next: map<string, set<string>>)
    requires groups.Keys == Apps(rs)
    requires forall a :: a in groups ==> groups[a] == OutletsOf(rs, a)
    requires next == if r.app in groups then groups[r.app := groups[r.app] + {r.outlet}]
                     else groups[r.app := {r.outlet}]
    ensures next.Keys == Apps(rs + [r])
    ensures forall a :: a in next ==> next[a] == OutletsOf(rs + [r], a)
  {
    GroupsSnoc(rs, r);
    forall a | a in next
      ensures next[a] == OutletsOf(rs + [r], a)
    {
      if a != r.app {
        assert next[a] == groups[a];
      } else if r.app !in groups {
        OutletsOfAbsentApp(rs, r.app);
      }
    }
  }

  /** df[df['searched_date'] == date1] and df[df['searched_date'] == date2]. */
  method SplitByDate(df: seq<Record>, date1: string, date2: string) returns (df1: seq<Record>, df2: seq<Record>)
    ensures df1 == OnDate(df, date1) && df2 == OnDate(df, date2)
  {
    df1, df2 := [], [];
    for i := 0 to |df|
      invariant df1 == OnDate(df[..i], date1) && df2 == OnDate(df[..i], date2)
    {
      var r := df[i];
      assert df[..i + 1] == df[..i] + [r];
      FilterSnoc(df[..i], r, (r: Record) => SearchedDate(r) == date1);
      FilterSnoc(df[..i], r, (r: Record) => SearchedDate(r) == date2);
      if SearchedDate(r) == date1 {
        df1 := df1 + [r];
      }
      if SearchedDate(r) == date2 {
        df2 := df2 + [r];
      }
    }
    assert df[..|df|] == df;
  }

  /** pd.concat([count1, count2], axis=1).fillna(0) with 'Difference': one
      line per app in apps, its counts on both dates (0 where it is absent)
      and their difference. */
  method CombineCounts(df1: seq<Record>, df2: seq<Record>,
                       count1: map<string, int>, count2: map<string, int>, apps: seq<string>)
    returns (summary: seq<SummaryRow>)
    requires count1.Keys == Apps(df1) && forall a :: a in count1 ==> count1[a] == |OutletsOf(df1, a)|
    requires count2.Keys == Apps(df2) && forall a :: a in count2 ==> count2[a] == |OutletsOf(df2, a)|
    ensures |summary| == |apps|
    ensures forall i :: 0 <= i < |apps| ==> summary[i].app == apps[i]
    ensures forall row :: row in summary ==>
              row.yesterday == |OutletsOf(df1, row.app)| &&
              row.today == |OutletsOf(df2, row.app)| &&
              row.difference == row.today - row.yesterday
  {
    summary := [];
    for k := 0 to |apps|
      invariant |summary| == k
      invariant forall i :: 0 <= i < k ==> summary[i].app == apps[i]
      invariant forall row :: row in summary ==>
                  row.yesterday == |OutletsOf(df1, row.app)| &&
                  row.today == |OutletsOf(df2, row.app)| &&
                  row.difference == row.today - row.yesterday
    {
      var a := apps[k];
      // fillna(0): an app absent on one date counts no outlets there
      var y := if a in count1 then count1[a] else 0;
      var t := if a in count2 then count2[a] else 0;
      if a !in count1 {
        OutletsOfAbsentApp(df1, a);
      }
      if a !in count2 {
        OutletsOfAbsentApp(df2, a);
      }
      summary := summary + [SummaryRow(a, y, t, t - y)];
    }
  }

  /** The summary lines are in strictly increasing app order (the sorted
      group index), so each app has one line. */
  ghost predicate AppsStrictlySorted(summary: seq<SummaryRow>)
  {
    forall i, j :: 0 <= i < j < |summary| ==> StrLess(summary[i].app, summary[j].app)
  }

  /** buyer_app_summary(df, date1, date2): the rows of each date, and one
      summary line per buyer app present on either date, in app order, with
      an app missing on a date counted 0 there and Difference = date2 count
      minus date1 count. */
  method BuyerAppSummary(df: seq<Record>, date1: string, date2: string)
    returns (summary: seq<SummaryRow>, df1: seq<Record>, df2: seq<Record>)
    ensures df1 == OnDate(df, date1) && df2 == OnDate(df, date2)
    ensures AppsStrictlySorted(summary)
    ensures SummaryApps(summary) == Apps(df1) + Apps(df2)
    ensures forall row :: row in summary ==>
              row.yesterday == |OutletsOf(df1, row.app)| &&
              row.today == |OutletsOf(df2, row.app)| &&
              row.difference == row.today - row.yesterday
  {
    df1, df2 := SplitByDate(df, date1, date2);
    var count1 := OutletCountsByApp(df1);
    var count2 := OutletCountsByApp(df2);
    var apps := SortedKeys(count1.Keys + count2.Keys);
    summary := CombineCounts(df1, df2, count1, count2, apps);
    forall a ensures a in SummaryApps(summary) <==> a in apps {
      if a in apps {
        var i :| 0 <= i < |apps| && apps[i] == a;
        assert summary[i] in summary;
      }
    }
  }

  /** Per app, the summary says how many outlets were gained or lost, and an
      app seen on one date only shows the other date as 0. */
  lemma DifferenceIsChange(summary: seq<SummaryRow>, df1: seq<Record>, df2: seq<Record>, row: SummaryRow)
    requires forall row :: row in summary ==>
               row.yesterday == |OutletsOf(df1, row.app)| &&
               row.today == |OutletsOf(df2, row.app)| &&
               row.difference == row.today - row.yesterday
    requires row in summary
    ensures row.app !in Apps(df1) ==> row.yesterday == 0 && row.difference == row.today
    ensures row.app !in Apps(df2) ==> row.today == 0 && row.difference == -row.yesterday
    ensures row.difference < 0 <==> |OutletsOf(df2, row.app)| < |OutletsOf(df1, row.app)|
  {
    if row.app !in Apps(df1) {
      OutletsOfAbsentApp(df1, row.app);
    }
    if row.app !in Apps(df2) {
      OutletsOfAbsentApp(df2, row.app);
    }
  }
}
