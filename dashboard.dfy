/** The page's analysis pipeline (on_search_dashboard.py:98-119): load and
    normalise, pick the two latest dates or halt, compare coverage, list the
    missing stores, summarise today's NACKs and compute the KPI figures. */
module Dashboard {
  import opened Records
  import opened Strings
  import opened Seqs
  import opened Normalizer
  import opened PeriodSelector
  import opened Coverage
  import opened MissingOutlets
  import opened NackSummary

  const OneDateMessage: string :=
    "Only one date found. Please upload file with at least two different 'Searched On' dates."

  /** The six metric tiles. */
  datatype Kpis = Kpis(storesToday: int, storesYesterday: int, appsToday: int,
                       totalNacks: int, changeInCoverage: int, droppedApps: int)

  /** Everything the page shows for one upload. */
  datatype Report = Report(
    date1: string, date2: string,
    summary: seq<SummaryRow>, dfYesterday: seq<Record>, dfToday: seq<Record>,
    onlyYesterday: seq<Record>, onlyToday: seq<Record>,
    nackSummary: seq<NackRow>, nackDf: seq<NackRecord>,
    kpis: Kpis)

  /** st.error + st.stop, or the full analysis. */
  datatype Outcome = Halted(message: string) | Analyzed(report: Report)

  /** summary[summary['Difference'] < 0]. */
  function Dropped(summary: seq<SummaryRow>): (dropped: seq<SummaryRow>)
    ensures forall row :: row in dropped <==> row in summary && row.difference < 0
  {
    FilterMembership(summary, (row: SummaryRow) => row.difference < 0);
    Filter(summary, (row: SummaryRow) => row.difference < 0)
  }

  /** The apps whose distinct-outlet count fell. */
  function DroppedApps(summary: seq<SummaryRow>): set<string>
  {
    set row | row in summary && row.difference < 0 :: row.app
  }

  /** The last line of a summary in strictly increasing app order is an app
      no earlier line has. */
  lemma LastAppIsNew(summary: seq<SummaryRow>)
    requires summary != [] && AppsStrictlySorted(summary)
    ensures summary[|summary| - 1].app !in SummaryApps(summary[..|summary| - 1])
  {
    var u := summary[..|summary| - 1];
    var last := summary[|summary| - 1];
    if last.app in SummaryApps(u) {
      assert false;
    }
  }

  /** Adding a line adds its app, and adds it to the dropped apps when its
      count fell. */
  lemma AppsSnoc(u: seq<SummaryRow>, last: SummaryRow)
    ensures DroppedApps(u + [last]) == DroppedApps(u) + (if last.difference < 0 then {last.app} else {})
    ensures DroppedApps(u) <= SummaryApps(u)
  {
  }

  /** On a summary with one line per app, the number of dropped lines is the
      number of apps whose count fell. */
  lemma {:induction false} DroppedCountsApps(summary: seq<SummaryRow>)
    requires AppsStrictlySorted(summary)
    ensures |Dropped(summary)| == |DroppedApps(summary)|
  {
    if summary != [] {
      var u := summary[..|summary| - 1];
      var last := summary[|summary| - 1];
      assert AppsStrictlySorted(u);
      DroppedCountsApps(u);
      LastAppIsNew(summary);
      assert summary == u + [last];
      FilterSnoc(u, last, (row: SummaryRow) => row.difference < 0);
      AppsSnoc(u, last);
    }
  }

  /** At most every app can have dropped. */
  lemma DroppedAtMostApps(summary: seq<SummaryRow>)
    ensures |DroppedApps(summary)| <= |SummaryApps(summary)|
  {
    var d, a := DroppedApps(summary), SummaryApps(summary);
    assert a == d + (a - d);
    assert d * (a - d) == {};
  }

  /** The net change in stores is the stores gained minus the stores lost. */
  lemma NetChangeIsGainedMinusLost(today: set<string>, yesterday: set<string>)
    ensures |today| - |yesterday| == |today - yesterday| - |yesterday - today|
  {
    assert today == (today - yesterday) + (today * yesterday);
    assert yesterday == (yesterday - today) + (today * yesterday);
  }

  /** What the page shows for dates date1 (yesterday) and date2 (today) of
      the normalised table df: each day's rows; the per-app comparison over
      the apps of either day; the rows whose outlet|app key is missing on
      the other day; today's NACK rows and their (app, reason) groups; and
      the KPI figures, the net change being stores gained minus stores lost
      and the dropped-app count being the number of apps whose count fell. */
  ghost predicate ReportOf(df: seq<Record>, rep: Report)
  {
    && rep.dfYesterday == OnDate(df, rep.date1)
    && rep.dfToday == OnDate(df, rep.date2)
    && AppsStrictlySorted(rep.summary)
    && SummaryApps(rep.summary) == Apps(rep.dfYesterday) + Apps(rep.dfToday)
    && (forall row :: row in rep.summary ==>
          row.yesterday == |OutletsOf(rep.dfYesterday, row.app)| &&
          row.today == |OutletsOf(rep.dfToday, row.app)| &&
          row.difference == row.today - row.yesterday)
    && rep.onlyYesterday == KeyIn(rep.dfYesterday, OutletKeys(rep.dfYesterday) - OutletKeys(rep.dfToday))
    && rep.onlyToday == KeyIn(rep.dfToday, OutletKeys(rep.dfToday) - OutletKeys(rep.dfYesterday))
    && rep.nackDf == NackRecords(rep.dfToday)
    && (forall i :: 0 <= i < |rep.nackSummary| ==> rep.nackSummary[i].sno == i + 1)
    && (forall i, j :: 0 <= i < j < |rep.nackSummary| ==>
          PairLess((rep.nackSummary[i].app, rep.nackSummary[i].reason), (rep.nackSummary[j].app, rep.nackSummary[j].reason)))
    && RowKeys(rep.nackSummary) == Groups(rep.nackDf)
    && (forall row :: row in rep.nackSummary ==> row.storeCount == |GroupOutlets(rep.nackDf, row.app, row.reason)|)
    && rep.kpis.storesToday == |Outlets(rep.dfToday)|
    && rep.kpis.storesYesterday == |Outlets(rep.dfYesterday)|
    && rep.kpis.appsToday == |Apps(rep.dfToday)|
    && rep.kpis.totalNacks == SumCounts(rep.nackSummary)
    && rep.kpis.changeInCoverage == rep.kpis.storesToday - rep.kpis.storesYesterday
    && rep.kpis.changeInCoverage == |Outlets(rep.dfToday) - Outlets(rep.dfYesterday)| - |Outlets(rep.dfYesterday) - Outlets(rep.dfToday)|
    && rep.kpis.droppedApps == |DroppedApps(rep.summary)| <= |SummaryApps(rep.summary)|
  }

  /** Lines 109-119: the comparison of two chosen dates and its KPI figures. */
  method Compare(df: seq<Record>, date1: string, date2: string) returns (rep: Report)
    ensures rep.date1 == date1 && rep.date2 == date2
    ensures ReportOf(df, rep)
  {
    var summary, dfYesterday, dfToday := BuyerAppSummary(df, date1, date2);
    var onlyYesterday, onlyToday := GetMissingOutlets(dfYesterday, dfToday);
    var nackSum, nackDf, totalNack := NackSummary.NackSummary(dfToday);

    var storesToday := |Outlets(dfToday)|;
    var appsToday := |Apps(dfToday)|;
    var storesYesterday := |Outlets(dfYesterday)|;
    var change := storesToday - storesYesterday;
    NetChangeIsGainedMinusLost(Outlets(dfToday), Outlets(dfYesterday));
    var dropped := |Dropped(summary)|;
    DroppedCountsApps(summary);
    DroppedAtMostApps(summary);

    var kpis := Kpis(storesToday, storesYesterday, appsToday, totalNack, change, dropped);
    rep := Report(date1, date2, summary, dfYesterday, dfToday,
                  onlyYesterday, onlyToday, nackSum, nackDf, kpis);
  }

  /** Lines 100-119 on the loaded table: halts with its message when df has
      fewer than two distinct dates; otherwise compares the two latest
      dates, yesterday being the earlier one. */
  method AnalyzeTable(df: seq<Record>) returns (outcome: Outcome)
    ensures outcome.Halted? <==> |DistinctDates(df)| < 2
    ensures outcome.Halted? ==> outcome.message == OneDateMessage
    ensures outcome.Analyzed? ==>
              && [outcome.report.date1, outcome.report.date2] == GetLatestTwoDates(df)
              && Earlier(outcome.report.date1, outcome.report.date2)
              && ReportOf(df, outcome.report)
  {
    var dates := GetLatestTwoDates(df);
    if |dates| < 2 {
      return Halted(OneDateMessage);
    }
    assert dates == [dates[0], dates[1]];
    var rep := Compare(df, dates[0], dates[1]);
    outcome := Analyzed(rep);
  }

  /** The page's pipeline on an uploaded sheet: load_data, then the
      analysis of the loaded table. */
  method Analyze(rows: seq<Row>) returns (outcome: Outcome)
    ensures outcome.Halted? <==> |DistinctDates(Normalize(rows))| < 2
    ensures outcome.Halted? ==> outcome.message == OneDateMessage
    ensures outcome.Analyzed? ==>
              && [outcome.report.date1, outcome.report.date2] == GetLatestTwoDates(Normalize(rows))
              && Earlier(outcome.report.date1, outcome.report.date2)
              && ReportOf(Normalize(rows), outcome.report)
  {
    var df := LoadData(rows);
    outcome := AnalyzeTable(df);
  }
}
