/** Concrete runs of the rules on a small two-day sheet: outlet A of app X
    on 01-06-2024, then A (rejected with "request timeout") and B on
    02-06-2024. */
module Scenarios {
  import opened Records
  import opened Strings
  import opened Seqs
  import opened Dedupe
  import opened Normalizer
  import opened PeriodSelector
  import opened Coverage
  import opened MissingOutlets
  import opened Reasons
  import opened NackSummary
  import opened Dashboard

  const Day1: CalendarDate := Date(1, 6, 2024)
  const Day2: CalendarDate := Date(2, 6, 2024)

  const Sheet: seq<Row> := [
    Row(Some(Day1), Some("A"), Some("X"), None, Some("ACK"), None),
    Row(Some(Day2), Some("A"), Some("X"), None, Some("NACK"), Some("request timeout")),
    Row(Some(Day2), Some("B"), Some("X"), None, Some("ACK"), None)]

  const A1: Record := Record(Day1, "A", "X", None, Some("ACK"), None)
  const A2: Record := Record(Day2, "A", "X", None, Some("NACK"), Some("request timeout"))
  const B2: Record := Record(Day2, "B", "X", None, Some("ACK"), None)

  /** The 'searched_date' strings of the sheet. */
  lemma SheetDates()
    ensures SearchedDate(A1) == "01-06-2024"
    ensures SearchedDate(A2) == "02-06-2024" && SearchedDate(B2) == "02-06-2024"
  {
    assert TwoDigits(1) == "01" && TwoDigits(2) == "02" && TwoDigits(6) == "06";
    assert FourDigits(2024) == "2024";
  }

  /** Every row of the sheet has a date, an outlet and an app. */
  lemma SheetComplete()
    ensures DropIncomplete(Sheet) == [A1, A2, B2]
  {
    assert ToRecord(Sheet[0]) == A1 && ToRecord(Sheet[1]) == A2 && ToRecord(Sheet[2]) == B2;
    assert Sheet[..1][..0] == [];
    assert DropIncomplete(Sheet[..1]) == [A1];
    assert Sheet[..2][..1] == Sheet[..1];
    assert DropIncomplete(Sheet[..2]) == [A1, A2];
    assert Sheet[..2] == Sheet[..|Sheet| - 1];
  }

  /** Three rows whose keys differ pairwise have unique keys. */
  lemma KeysUniqueThree<T, K>(a: T, b: T, c: T, key: T -> K)
    requires key(a) != key(b) && key(a) != key(c) && key(b) != key(c)
    ensures KeysUnique([a, b, c], key)
  {
  }

  /** The sheet's three dedupe keys differ. */
  lemma SheetKeysUnique()
    ensures KeysUnique([A1, A2, B2], DedupeKey)
  {
    SheetDates();
    var k1, k2, k3 := DedupeKey(A1), DedupeKey(A2), DedupeKey(B2);
    // the dates differ in their second character, the outlets in theirs
    assert k1[..10][1] == '1' && k2[..10][1] == '2' && k3[..10][1] == '2';
    assert k2[11..12][0] == 'A' && k3[11..12][0] == 'B';
    KeysUniqueThree(A1, A2, B2, DedupeKey);
  }

  /** The sheet is complete and has no repeated key: normalising keeps it. */
  lemma SheetNormalizes()
    ensures Normalize(Sheet) == [A1, A2, B2]
  {
    SheetComplete();
    SheetKeysUnique();
    DropDuplicatesOfUnique([A1, A2, B2], DedupeKey);
  }

  /** Filter over a three-row table, row by row. */
  lemma FilterThree<T>(a: T, b: T, c: T, p: T -> bool)
    ensures Filter([a, b, c], p) ==
            (if p(a) then [a] else []) + (if p(b) then [b] else []) + (if p(c) then [c] else [])
  {
    FilterSnoc([], a, p);
    assert [] + [a] == [a];
    FilterSnoc([a], b, p);
    assert [a] + [b] == [a, b];
    FilterSnoc([a, b], c, p);
    assert [a, b] + [c] == [a, b, c];
  }

  /** Filter over a two-row table, row by row. */
  lemma FilterTwo<T>(a: T, b: T, p: T -> bool)
    ensures Filter([a, b], p) == (if p(a) then [a] else []) + (if p(b) then [b] else [])
  {
    FilterSnoc([], a, p);
    assert [] + [a] == [a];
    FilterSnoc([a], b, p);
    assert [a] + [b] == [a, b];
  }

  /** 01-06-2024 comes before 02-06-2024. */
  lemma SheetDatesOrdered()
    ensures "01-06-2024" != "02-06-2024"
    ensures Earlier("01-06-2024", "02-06-2024") && !Earlier("02-06-2024", "01-06-2024")
  {
    assert "01-06-2024"[1] != "02-06-2024"[1];
    assert Parse("01-06-2024") == Date(1, 6, 2024);
    assert Parse("02-06-2024") == Date(2, 6, 2024);
  }

  /** The sheet's distinct dates. */
  lemma SheetDistinctDates()
    ensures DistinctDates([A1, A2, B2]) == {"01-06-2024", "02-06-2024"}
  {
    SheetDates();
    assert A1 in [A1, A2, B2] && A2 in [A1, A2, B2];
  }

  /** The two dates picked are 01-06-2024, then 02-06-2024. */
  lemma SheetPeriod()
    ensures GetLatestTwoDates([A1, A2, B2]) == ["01-06-2024", "02-06-2024"]
  {
    SheetDistinctDates();
    SheetDatesOrdered();
    TwoDatesInOrder([A1, A2, B2], "01-06-2024", "02-06-2024");
  }

  /** Yesterday's rows: A only. */
  lemma SheetYesterday()
    ensures OnDate([A1, A2, B2], "01-06-2024") == [A1]
  {
    SheetDates();
    SheetDatesOrdered();
    FilterThree(A1, A2, B2, (r: Record) => SearchedDate(r) == "01-06-2024");
  }

  /** Today's rows: A and B. */
  lemma SheetToday()
    ensures OnDate([A1, A2, B2], "02-06-2024") == [A2, B2]
  {
    SheetDates();
    SheetDatesOrdered();
    FilterThree(A1, A2, B2, (r: Record) => SearchedDate(r) == "02-06-2024");
  }

  /** Yesterday holds A, today A and B: app X goes from 1 outlet to 2. */
  lemma SheetCoverage()
    ensures OnDate([A1, A2, B2], "01-06-2024") == [A1]
    ensures OnDate([A1, A2, B2], "02-06-2024") == [A2, B2]
    ensures |OutletsOf([A1], "X")| == 1 && |OutletsOf([A2, B2], "X")| == 2
  {
    SheetYesterday();
    SheetToday();
    SheetOutletCounts();
  }

  /** App X has outlet A yesterday, outlets A and B today. */
  lemma SheetOutletCounts()
    ensures |OutletsOf([A1], "X")| == 1 && |OutletsOf([A2, B2], "X")| == 2
  {
    assert A1 in [A1];
    assert OutletsOf([A1], "X") == {"A"};
    assert A2 in [A2, B2] && B2 in [A2, B2];
    assert OutletsOf([A2, B2], "X") == {"A", "B"};
    assert "A" != "B" by { assert "A"[0] != "B"[0]; }
  }

  /** Outlet B is new today and no outlet of yesterday is missing. */
  lemma SheetMissing()
    ensures KeyIn([A1], OutletKeys([A1]) - OutletKeys([A2, B2])) == []
    ensures KeyIn([A2, B2], OutletKeys([A2, B2]) - OutletKeys([A1])) == [B2]
  {
    assert OutletKey(A1) == "A|X" && OutletKey(A2) == "A|X" && OutletKey(B2) == "B|X";
    assert "A|X" != "B|X" by { assert "A|X"[0] != "B|X"[0]; }
    var gone := OutletKeys([A1]) - OutletKeys([A2, B2]);
    var added := OutletKeys([A2, B2]) - OutletKeys([A1]);
    assert gone == {};
    assert added == {"B|X"};
    FilterSnoc([], A1, (r: Record) => OutletKey(r) in gone);
    assert [] + [A1] == [A1];
    FilterTwo(A2, B2, (r: Record) => OutletKey(r) in added);
  }

  /** "request timeout" is a Timeout. */
  lemma RequestTimeoutIsTimeout()
    ensures ExtractReason(Some("request timeout")) == "Timeout"
  {
    var m := Lower("request timeout");
    assert m[8..] == "timeout";
    assert StartsWith(m[8..], "timeout");
    ContainsAt(m, "timeout");
    assert OccursAt(m, "timeout", 8);
  }

  /** Of today's rows only A's is a NACK. */
  lemma SheetNackRows()
    ensures IsNack(A2) && !IsNack(B2)
  {
    assert Upper("NACK") == "NACK";
    assert Upper("ACK") != "NACK" by { assert |Upper("ACK")| == 3; }
  }

  /** Today's only NACK is A's timeout: one (X, Timeout) group of one store. */
  lemma SheetNacks()
    ensures NackRecords([A2, B2]) == [NackRecord(A2, "Timeout")]
    ensures Groups(NackRecords([A2, B2])) == {("X", "Timeout")}
    ensures GroupOutlets(NackRecords([A2, B2]), "X", "Timeout") == {"A"}
  {
    RequestTimeoutIsTimeout();
    SheetNackRows();
    assert [A2, B2][..1] == [A2] && [A2][..0] == [];
    assert NackRecords([A2]) == [NackRecord(A2, "Timeout")];
    SheetNackGroups();
  }

  /** The one NACK row makes one (X, Timeout) group holding outlet A. */
  lemma SheetNackGroups()
    ensures Groups([NackRecord(A2, "Timeout")]) == {("X", "Timeout")}
    ensures GroupOutlets([NackRecord(A2, "Timeout")], "X", "Timeout") == {"A"}
  {
    assert NackRecord(A2, "Timeout") in [NackRecord(A2, "Timeout")];
  }

  /** The apps and outlets of each day of the sheet. */
  lemma SheetDayStores()
    ensures Apps([A1]) == {"X"} && Apps([A2, B2]) == {"X"}
    ensures Outlets([A1]) == {"A"} && Outlets([A2, B2]) == {"A", "B"}
    ensures |Outlets([A1])| == 1 && |Outlets([A2, B2])| == 2 && |Apps([A2, B2])| == 1
  {
    assert A1 in [A1] && A2 in [A2, B2] && B2 in [A2, B2];
    assert "A" != "B" by { assert "A"[0] != "B"[0]; }
  }

  /** App X gained a store, so no app dropped. */
  lemma SheetNoneDropped()
    ensures DroppedApps([SummaryRow("X", 1, 2, 1)]) == {}
  {
  }

  /** A summary in strictly increasing app order that names one app has
      exactly one line. */
  lemma SingleSummaryLine(s: seq<SummaryRow>, app: string)
    requires AppsStrictlySorted(s) && SummaryApps(s) == {app}
    ensures |s| == 1 && s[0].app == app
  {
    assert app in SummaryApps(s);
    forall i | 0 <= i < |s|
      ensures s[i].app == app
    {
      assert s[i].app in SummaryApps(s);
    }
    assert s != [];
    assert |s| >= 2 ==> StrLess(s[0].app, s[1].app);
    assert !StrLess(app, app);
  }

  /** A NACK summary in strictly increasing (app, reason) order that names
      one group has exactly one line. */
  lemma SingleNackLine(s: seq<NackRow>, app: string, reason: string)
    requires forall i, j :: 0 <= i < j < |s| ==> PairLess((s[i].app, s[i].reason), (s[j].app, s[j].reason))
    requires RowKeys(s) == {(app, reason)}
    ensures |s| == 1 && s[0].app == app && s[0].reason == reason
  {
    assert (app, reason) in RowKeys(s);
    forall i | 0 <= i < |s|
      ensures (s[i].app, s[i].reason) == (app, reason)
    {
      assert (s[i].app, s[i].reason) in RowKeys(s);
    }
    assert s != [];
    assert |s| >= 2 ==> PairLess((s[0].app, s[0].reason), (s[1].app, s[1].reason));
    assert !PairLess((app, reason), (app, reason));
  }

  /** The total of a one-line NACK summary is that line's store count. */
  lemma SumOfOneLine(s: seq<NackRow>)
    requires |s| == 1
    ensures SumCounts(s) == s[0].storeCount
  {
    assert s[..0] == [];
  }

  /** The report for the sheet's two dates: each day's rows and the one
      summary line of app X, 1 outlet yesterday and 2 today. */
  lemma SheetReportSummary(rep: Report)
    requires rep.date1 == "01-06-2024" && rep.date2 == "02-06-2024"
    requires ReportOf([A1, A2, B2], rep)
    ensures rep.dfYesterday == [A1] && rep.dfToday == [A2, B2]
    ensures rep.summary == [SummaryRow("X", 1, 2, 1)]
  {
    SheetCoverage();
    SheetDayStores();
    SingleSummaryLine(rep.summary, "X");
    assert rep.summary[0] in rep.summary;
  }

  /** Today's NACK rows and their one summary line: (1, X, Timeout, 1). */
  lemma SheetReportNacks(rep: Report)
    requires rep.date1 == "01-06-2024" && rep.date2 == "02-06-2024"
    requires ReportOf([A1, A2, B2], rep)
    ensures rep.nackDf == [NackRecord(A2, "Timeout")]
    ensures rep.nackSummary == [NackRow(1, "X", "Timeout", 1)]
    ensures rep.kpis.totalNacks == 1
  {
    SheetToday();
    SheetNacks();
    SingleNackLine(rep.nackSummary, "X", "Timeout");
    assert rep.nackSummary[0] in rep.nackSummary;
    SumOfOneLine(rep.nackSummary);
  }

  /** The missing-store lists and the six metric tiles for the sheet. */
  lemma SheetReportKpis(rep: Report)
    requires rep.date1 == "01-06-2024" && rep.date2 == "02-06-2024"
    requires ReportOf([A1, A2, B2], rep)
    ensures rep.onlyYesterday == [] && rep.onlyToday == [B2]
    ensures rep.kpis == Kpis(2, 1, 1, 1, 1, 0)
  {
    SheetReportSummary(rep);
    SheetReportNacks(rep);
    SheetMissing();
    SheetDayStores();
    SheetNoneDropped();
  }

  /** What the page shows for the sheet: it does not halt, compares
      01-06-2024 with 02-06-2024, and reports app X going from 1 store to 2,
      one Timeout NACK at one store, outlet B new today, and the tiles
      2 stores today, 1 yesterday, 1 app, 1 NACK, +1 change, 0 dropped. */
  lemma SheetAnalysis(outcome: Outcome)
    requires outcome.Halted? <==> |DistinctDates(Normalize(Sheet))| < 2
    requires outcome.Analyzed? ==>
               && [outcome.report.date1, outcome.report.date2] == GetLatestTwoDates(Normalize(Sheet))
               && ReportOf(Normalize(Sheet), outcome.report)
    ensures outcome.Analyzed?
    ensures outcome.report.date1 == "01-06-2024" && outcome.report.date2 == "02-06-2024"
    ensures outcome.report.summary == [SummaryRow("X", 1, 2, 1)]
    ensures outcome.report.nackSummary == [NackRow(1, "X", "Timeout", 1)]
    ensures outcome.report.onlyYesterday == [] && outcome.report.onlyToday == [B2]
    ensures outcome.report.kpis == Kpis(2, 1, 1, 1, 1, 0)
  {
    SheetNormalizes();
    SheetDistinctDates();
    SheetDatesOrdered();
    assert |DistinctDates(Normalize(Sheet))| == 2;
    SheetPeriod();
    var rep := outcome.report;
    assert ReportOf([A1, A2, B2], rep);
    assert [rep.date1, rep.date2][0] == "01-06-2024" && [rep.date1, rep.date2][1] == "02-06-2024";
    SheetReportSummary(rep);
    SheetReportNacks(rep);
    SheetReportKpis(rep);
  }
}
