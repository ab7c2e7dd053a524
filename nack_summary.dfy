/** nack_summary (on_search_dashboard.py:70-77): today's rejected searches,
    each tagged with its reason, grouped by (buyer app, reason) with the
    number of distinct outlets per group, numbered from 1, and totalled. */
module NackSummary {
  import opened Records
  import opened Strings
  import opened Reasons

  /** df_today['Status'].str.upper() == 'NACK'; a missing status is NaN and
      compares unequal. */
  predicate IsNack(r: Record)
    ensures IsNack(r) <==>
              r.status.Some? && |r.status.value| == 4 &&
              forall i :: 0 <= i < 4 ==> r.status.value[i] == "NACK"[i] || r.status.value[i] == "nack"[i]
  {
    r.status.Some? && Upper(r.status.value) == "NACK"
  }

  /** A row of nack_df: the record and its 'Reason' column. */
  datatype NackRecord = NackRecord(rec: Record, reason: string)

  /** One line of the summary: 'S.No', 'Buyer App', 'Reason', 'Store Count'. */
  datatype NackRow = NackRow(sno: int, app: string, reason: string, storeCount: int)

  /** nack_df: the NACK rows in their order, each with extract_reason of its message. */
  function NackRecords(df: seq<Record>): (nacks: seq<NackRecord>)
    ensures |nacks| <= |df|
    ensures forall i :: 0 <= i < |nacks| ==>
              IsNack(nacks[i].rec) && nacks[i].reason == ExtractReason(nacks[i].rec.message)
  {
    if df == [] then []
    else
      var last := df[|df| - 1];
      NackRecords(df[..|df| - 1]) + (if IsNack(last) then [NackRecord(last, ExtractReason(last.message))] else [])
  }

  /** The (app, reason) groups that have at least one NACK row. */
  function Groups(nacks: seq<NackRecord>): set<(string, string)>
  {
    set n | n in nacks :: (n.rec.app, n.reason)
  }

  /** The distinct outlets of one (app, reason) group. */
  function GroupOutlets(nacks: seq<NackRecord>, app: string, reason: string): (outlets: set<string>)
    ensures outlets == {} <==> (app, reason) !in Groups(nacks)
  {
    var outlets := set n | n in nacks && n.rec.app == app && n.reason == reason :: n.rec.outlet;
    assert (app, reason) in Groups(nacks) ==>
             exists n :: n in nacks && n.rec.app == app && n.reason == reason && n.rec.outlet in outlets;
    outlets
  }

  function RowKeys(rows: seq<NackRow>): set<(string, string)>
  {
    set row | row in rows :: (row.app, row.reason)
  }

  /** pandas' group order: by app, then by reason. */
  predicate PairLess(p: (string, string), q: (string, string))
    ensures PairLess(p, q) ==> p != q
  {
    StrLess(p.0, q.0) || (p.0 == q.0 && StrLess(p.1, q.1))
  }

  /** summary['Store Count'].sum(). */
  function SumCounts(rows: seq<NackRow>): (total: int)
    ensures (forall i :: 0 <= i < |rows| ==> rows[i].storeCount >= 0) ==> total >= 0
    ensures (forall i :: 0 <= i < |rows| ==> rows[i].storeCount >= 1) ==> total >= |rows|
  {
    if rows == [] then 0 else SumCounts(rows[..|rows| - 1]) + rows[|rows| - 1].storeCount
  }

  /** The rows of nack_df are exactly today's NACK rows, each with the reason
      extract_reason gives its message; nothing else contributes. */
  lemma {:induction false} NackRecordsSpec(df: seq<Record>)
    ensures forall n :: n in NackRecords(df) <==>
              n.rec in df && IsNack(n.rec) && n.reason == ExtractReason(n.rec.message)
  {
    if df != [] {
      var u := df[..|df| - 1];
      NackRecordsSpec(u);
      assert df == u + [df[|df| - 1]];
    }
  }

  /** The reason labels are listed in ascending string order. */
  lemma ReasonLabelsSorted()
    ensures StrictlySorted(ReasonLabels)
  {
    var l := ReasonLabels;
    forall i | 0 <= i < |l| - 1 ensures StrLess(l[i], l[i + 1]) {
      if i == 2 {
        // "No catalog mapped" and "No items found" part at their fourth character
        StrLessAt(l[i], l[i + 1], 3);
      } else {
        StrLessAt(l[i], l[i + 1], 0);
      }
    }
    StepsSorted(l);
  }

  /** A group that is already summarised lies before position (i, j) of the
      walk over apps[i] x ReasonLabels[j]. */
  ghost predicate Done(p: (string, string), apps: seq<string>, i: int, j: int)
    requires 0 <= i <= |apps| && 0 <= j <= |ReasonLabels|
  {
    p.0 in apps[..i] || (i < |apps| && p.0 == apps[i] && p.1 in ReasonLabels[..j])
  }

  /** What is done lies strictly before the group at the current position. */
  lemma DoneIsBefore(p: (string, string), apps: seq<string>, i: int, j: int)
    requires StrictlySorted(apps) && 0 <= i < |apps| && 0 <= j < |ReasonLabels|
    requires Done(p, apps, i, j)
    ensures PairLess(p, (apps[i], ReasonLabels[j]))
  {
    ReasonLabelsSorted();
    if p.0 in apps[..i] {
      var m :| 0 <= m < i && apps[m] == p.0;
    } else {
      var n :| 0 <= n < j && ReasonLabels[n] == p.1;
    }
  }

  /** Stepping over one reason of the current app adds exactly that group. */
  lemma DoneStep(p: (string, string), apps: seq<string>, i: int, j: int)
    requires 0 <= i < |apps| && 0 <= j < |ReasonLabels|
    ensures Done(p, apps, i, j + 1) <==> Done(p, apps, i, j) || p == (apps[i], ReasonLabels[j])
  {
    assert ReasonLabels[..j + 1] == ReasonLabels[..j] + [ReasonLabels[j]];
  }

  /** Finishing the reasons of apps[i] is starting apps[i + 1], for a group
      whose reason is one of the labels. */
  lemma DoneNextApp(p: (string, string), apps: seq<string>, i: int)
    requires 0 <= i < |apps| && p.1 in ReasonLabels
    ensures Done(p, apps, i, |ReasonLabels|) <==> Done(p, apps, i + 1, 0)
  {
    assert apps[..i + 1] == apps[..i] + [apps[i]];
    assert ReasonLabels[..|ReasonLabels|] == ReasonLabels;
  }

  /** Every NACK group's reason is one of the seven labels. */
  lemma GroupReasons(nacks: seq<NackRecord>, p: (string, string))
    requires forall n :: n in nacks ==> n.reason == ExtractReason(n.rec.message)
    requires p in Groups(nacks)
    ensures p.1 in ReasonLabels
  {
    var n :| n in nacks && (n.rec.app, n.reason) == p;
  }

  /** nack_df = df_today[Status.upper() == 'NACK'] with its 'Reason' column. */
  method CollectNacks(dfToday: seq<Record>) returns (nackDf: seq<NackRecord>)
    ensures nackDf == NackRecords(dfToday)
  {
    nackDf := [];
    for i := 0 to |dfToday|
      invariant nackDf == NackRecords(dfToday[..i])
    {
      var r := dfToday[i];
      assert dfToday[..i + 1][..i] == dfToday[..i];
      if IsNack(r) {
        nackDf := nackDf + [NackRecord(r, ExtractReason(r.message))];
      }
    }
    assert dfToday[..|dfToday|] == dfToday;
  }

  /** The facts the grouping walk keeps after visiting every group before
      position (i, j): rows numbered 1..n, in strictly increasing group
      order, each counting its group's distinct outlets, and the rows'
      groups being exactly the non-empty groups visited so far. */
  ghost predicate WalkInv(nackDf: seq<NackRecord>, apps: seq<string>, summary: seq<NackRow>, i: int, j: int)
    requires 0 <= i <= |apps| && 0 <= j <= |ReasonLabels|
  {
    && (forall k :: 0 <= k < |summary| ==> summary[k].sno == k + 1)
    && (forall k1, k2 :: 0 <= k1 < k2 < |summary| ==>
          PairLess((summary[k1].app, summary[k1].reason), (summary[k2].app, summary[k2].reason)))
    && (forall row :: row in summary ==> row.storeCount == |GroupOutlets(nackDf, row.app, row.reason)|)
    && (forall p :: p in RowKeys(summary) <==> p in Groups(nackDf) && Done(p, apps, i, j))
  }

  /** The summary after visiting group (apps[i], ReasonLabels[j]): a new
      line when the group has NACK rows, nothing otherwise. */
  function Visit(nackDf: seq<NackRecord>, apps: seq<string>, summary: seq<NackRow>, i: int, j: int): seq<NackRow>
    requires 0 <= i < |apps| && 0 <= j < |ReasonLabels|
  {
    var outlets := GroupOutlets(nackDf, apps[i], ReasonLabels[j]);
    if |outlets| > 0 then summary + [NackRow(|summary| + 1, apps[i], ReasonLabels[j], |outlets|)] else summary
  }

  /** A group is non-empty exactly when it has distinct outlets. */
  lemma GroupNonEmpty(nackDf: seq<NackRecord>, a: string, reason: string)
    ensures (a, reason) in Groups(nackDf) <==> |GroupOutlets(nackDf, a, reason)| > 0
  {
    if (a, reason) in Groups(nackDf) {
      var n :| n in nackDf && (n.rec.app, n.reason) == (a, reason);
      assert n.rec.outlet in GroupOutlets(nackDf, a, reason);
    }
    if |GroupOutlets(nackDf, a, reason)| > 0 {
      var o :| o in GroupOutlets(nackDf, a, reason);
      var n :| n in nackDf && n.rec.app == a && n.reason == reason && n.rec.outlet == o;
      assert (n.rec.app, n.reason) in Groups(nackDf);
    }
  }

  /** Visiting one group keeps the walk's facts. */
  lemma VisitKeepsWalkInv(nackDf: seq<NackRecord>, apps: seq<string>, summary: seq<NackRow>, i: int, j: int)
    requires StrictlySorted(apps) && 0 <= i < |apps| && 0 <= j < |ReasonLabels|
    requires WalkInv(nackDf, apps, summary, i, j)
    ensures WalkInv(nackDf, apps, Visit(nackDf, apps, summary, i, j), i, j + 1)
  {
    var a, reason := apps[i], ReasonLabels[j];
    forall p ensures Done(p, apps, i, j + 1) <==> Done(p, apps, i, j) || p == (a, reason) {
      DoneStep(p, apps, i, j);
    }
    GroupNonEmpty(nackDf, a, reason);
    var next := Visit(nackDf, apps, summary, i, j);
    if |GroupOutlets(nackDf, a, reason)| > 0 {
      forall row | row in summary ensures PairLess((row.app, row.reason), (a, reason)) {
        assert (row.app, row.reason) in RowKeys(summary);
        DoneIsBefore((row.app, row.reason), apps, i, j);
      }
      assert RowKeys(next) == RowKeys(summary) + {(a, reason)};
    }
  }

  /** Finishing one app's reasons is starting the next app. */
  lemma NextAppKeepsWalkInv(nackDf: seq<NackRecord>, apps: seq<string>, summary: seq<NackRow>, i: int)
    requires 0 <= i < |apps|
    requires forall n :: n in nackDf ==> n.reason == ExtractReason(n.rec.message)
    requires WalkInv(nackDf, apps, summary, i, |ReasonLabels|)
    ensures WalkInv(nackDf, apps, summary, i + 1, 0)
  {
    forall p | p in Groups(nackDf) ensures Done(p, apps, i, |ReasonLabels|) <==> Done(p, apps, i + 1, 0) {
      GroupReasons(nackDf, p);
      DoneNextApp(p, apps, i);
    }
  }

  /** Once every app is walked, every non-empty group has its line. */
  lemma WalkDone(nackDf: seq<NackRecord>, apps: seq<string>, summary: seq<NackRow>)
    requires forall a :: a in apps <==> exists n :: n in nackDf && n.rec.app == a
    requires WalkInv(nackDf, apps, summary, |apps|, 0)
    ensures RowKeys(summary) == Groups(nackDf)
  {
    forall p | p in Groups(nackDf) ensures Done(p, apps, |apps|, 0) {
      var n :| n in nackDf && (n.rec.app, n.reason) == p;
      assert apps[..|apps|] == apps;
    }
  }

  /** groupby(['Buyer App', 'Reason'])['Outlet Name'].nunique() with 'S.No':
      the groups walked in (app, reason) order, apps being the sorted apps
      of nackDf. */
  method GroupNacks(nackDf: seq<NackRecord>, apps: seq<string>) returns (summary: seq<NackRow>)
    requires StrictlySorted(apps)
    requires forall a :: a in apps <==> exists n :: n in nackDf && n.rec.app == a
    requires forall n :: n in nackDf ==> n.reason == ExtractReason(n.rec.message)
    ensures forall i :: 0 <= i < |summary| ==> summary[i].sno == i + 1
    ensures forall i, j :: 0 <= i < j < |summary| ==>
              PairLess((summary[i].app, summary[i].reason), (summary[j].app, summary[j].reason))
    ensures RowKeys(summary) == Groups(nackDf)
    ensures forall row :: row in summary ==> row.storeCount == |GroupOutlets(nackDf, row.app, row.reason)|
  {
    summary := [];
    for i := 0 to |apps|
      invariant WalkInv(nackDf, apps, summary, i, 0)
    {
      for j := 0 to |ReasonLabels|
        invariant WalkInv(nackDf, apps, summary, i, j)
      {
        var a, reason := apps[i], ReasonLabels[j];
        var outlets := GroupOutlets(nackDf, a, reason);
        VisitKeepsWalkInv(nackDf, apps, summary, i, j);
        if |outlets| > 0 {
          summary := summary + [NackRow(|summary| + 1, a, reason, |outlets|)];
        }
      }
      NextAppKeepsWalkInv(nackDf, apps, summary, i);
    }
    WalkDone(nackDf, apps, summary);
  }

  /** summary['Store Count'].sum(). */
  method TotalRejected(summary: seq<NackRow>) returns (total: int)
    ensures total == SumCounts(summary)
  {
    total := 0;
    for k := 0 to |summary|
      invariant total == SumCounts(summary[..k])
    {
      assert summary[..k + 1][..k] == summary[..k];
      total := total + summary[k].storeCount;
    }
    assert summary[..|summary|] == summary;
  }

  /** nack_summary(df_today): nack_df; one summary line per (app, reason)
      group with NACK rows, in (app, reason) order, 'S.No' running 1..n,
      'Store Count' the number of distinct outlets of the group; and the
      total of the store counts. */
  method NackSummary(dfToday: seq<Record>)
    returns (summary: seq<NackRow>, nackDf: seq<NackRecord>, totalRejected: int)
    ensures nackDf == NackRecords(dfToday)
    ensures forall i :: 0 <= i < |summary| ==> summary[i].sno == i + 1
    ensures forall i, j :: 0 <= i < j < |summary| ==>
              PairLess((summary[i].app, summary[i].reason), (summary[j].app, summary[j].reason))
    ensures RowKeys(summary) == Groups(nackDf)
    ensures forall row :: row in summary ==> row.storeCount == |GroupOutlets(nackDf, row.app, row.reason)|
    ensures totalRejected == SumCounts(summary)
  {
    nackDf := CollectNacks(dfToday);
    NackRecordsSpec(dfToday);
    var apps := SortedKeys(set n | n in nackDf :: n.rec.app);
    summary := GroupNacks(nackDf, apps);
    totalRejected := TotalRejected(summary);
  }

  /** The distinct (app, reason, outlet) triples of the NACK rows whose
      group lies in keys. */
  function TriplesOf(nacks: seq<NackRecord>, keys: set<(string, string)>): set<(string, string, string)>
  {
    set n | n in nacks && (n.rec.app, n.reason) in keys :: (n.rec.app, n.reason, n.rec.outlet)
  }

  /** Tagging every outlet of a set with the same group keeps its size. */
  lemma {:induction false} TagCard(outlets: set<string>, a: string, reason: string)
    ensures |set o | o in outlets :: (a, reason, o)| == |outlets|
    decreases |outlets|
  {
    if outlets != {} {
      var o :| o in outlets;
      var rest := outlets - {o};
      TagCard(rest, a, reason);
      assert (set x | x in outlets :: (a, reason, x)) == (set x | x in rest :: (a, reason, x)) + {(a, reason, o)};
    }
  }

  lemma PairLessIrreflexive(p: (string, string))
    ensures !PairLess(p, p)
  {
    StrLessIrreflexive(p.0);
    StrLessIrreflexive(p.1);
  }

  /** Adding one group to a set of groups adds that group's triples, which
      are new when the group is. */
  lemma TriplesAddGroup(nacks: seq<NackRecord>, keys: set<(string, string)>, a: string, reason: string)
    requires (a, reason) !in keys
    ensures var tagged := set o | o in GroupOutlets(nacks, a, reason) :: (a, reason, o);
            TriplesOf(nacks, keys + {(a, reason)}) == TriplesOf(nacks, keys) + tagged &&
            TriplesOf(nacks, keys) !! tagged
  {
    var tagged := set o | o in GroupOutlets(nacks, a, reason) :: (a, reason, o);
    forall t | t in tagged ensures t in TriplesOf(nacks, keys + {(a, reason)}) {
      var o :| o in GroupOutlets(nacks, a, reason) && t == (a, reason, o);
      var n :| n in nacks && n.rec.app == a && n.reason == reason && n.rec.outlet == o;
    }
  }

  /** The last line of a summary in strictly increasing group order is a
      group no earlier line has. */
  lemma LastGroupIsNew(summary: seq<NackRow>)
    requires summary != []
    requires forall i, j :: 0 <= i < j < |summary| ==>
               PairLess((summary[i].app, summary[i].reason), (summary[j].app, summary[j].reason))
    ensures var last := summary[|summary| - 1];
            (last.app, last.reason) !in RowKeys(summary[..|summary| - 1])
  {
    var u := summary[..|summary| - 1];
    var last := summary[|summary| - 1];
    var k := (last.app, last.reason);
    if k in RowKeys(u) {
      assert false;
    }
  }

  /** Summary lines in strictly increasing group order, each counting its
      group's distinct outlets. */
  ghost predicate CountedInOrder(nacks: seq<NackRecord>, summary: seq<NackRow>)
  {
    && (forall i, j :: 0 <= i < j < |summary| ==>
          PairLess((summary[i].app, summary[i].reason), (summary[j].app, summary[j].reason)))
    && (forall row :: row in summary ==> row.storeCount == |GroupOutlets(nacks, row.app, row.reason)|)
  }

  /** Dropping the last line keeps the summary ordered and counted. */
  lemma CountedInOrderPrefix(nacks: seq<NackRecord>, summary: seq<NackRow>)
    requires summary != [] && CountedInOrder(nacks, summary)
    ensures CountedInOrder(nacks, summary[..|summary| - 1])
  {
    assert forall row :: row in summary[..|summary| - 1] ==> row in summary;
  }

  /** The last line's group adds exactly its distinct outlets to the triples. */
  lemma LastGroupTriples(nacks: seq<NackRecord>, summary: seq<NackRow>)
    requires summary != [] && CountedInOrder(nacks, summary)
    ensures var last := summary[|summary| - 1];
            |TriplesOf(nacks, RowKeys(summary))| ==
            |TriplesOf(nacks, RowKeys(summary[..|summary| - 1]))| + |GroupOutlets(nacks, last.app, last.reason)|
  {
    var u := summary[..|summary| - 1];
    var last := summary[|summary| - 1];
    assert summary == u + [last];
    assert RowKeys(summary) == RowKeys(u) + {(last.app, last.reason)};
    LastGroupIsNew(summary);
    TriplesAddGroup(nacks, RowKeys(u), last.app, last.reason);
    TagCard(GroupOutlets(nacks, last.app, last.reason), last.app, last.reason);
  }

  /** The total of a summary whose lines are distinct groups, each counting
      its distinct outlets, is the number of distinct (app, reason, outlet)
      triples of those groups: an outlet rejected for two reasons, or by two
      apps, is counted once per group. */
  lemma {:induction false} SumCountsIsTriples(nacks: seq<NackRecord>, summary: seq<NackRow>)
    requires CountedInOrder(nacks, summary)
    ensures SumCounts(summary) == |TriplesOf(nacks, RowKeys(summary))|
  {
    if summary == [] {
      assert TriplesOf(nacks, RowKeys(summary)) == {};
    } else {
      CountedInOrderPrefix(nacks, summary);
      SumCountsIsTriples(nacks, summary[..|summary| - 1]);
      LastGroupTriples(nacks, summary);
      assert summary[|summary| - 1] in summary;
    }
  }

  /** The "Total Rejected Stores" figure is the number of distinct
      (app, reason, outlet) triples among today's NACK rows. */
  lemma TotalRejectedIsTriples(dfToday: seq<Record>, summary: seq<NackRow>, totalRejected: int)
    requires forall i, j :: 0 <= i < j < |summary| ==>
               PairLess((summary[i].app, summary[i].reason), (summary[j].app, summary[j].reason))
    requires RowKeys(summary) == Groups(NackRecords(dfToday))
    requires forall row :: row in summary ==> row.storeCount == |GroupOutlets(NackRecords(dfToday), row.app, row.reason)|
    requires totalRejected == SumCounts(summary)
    ensures totalRejected == |set r | r in dfToday && IsNack(r) :: (r.app, ExtractReason(r.message), r.outlet)|
  {
    var nacks := NackRecords(dfToday);
    SumCountsIsTriples(nacks, summary);
    NackRecordsSpec(dfToday);
    var want := set r | r in dfToday && IsNack(r) :: (r.app, ExtractReason(r.message), r.outlet);
    forall t | t in want ensures t in TriplesOf(nacks, Groups(nacks)) {
      var r :| r in dfToday && IsNack(r) && t == (r.app, ExtractReason(r.message), r.outlet);
      var n := NackRecord(r, ExtractReason(r.message));
      assert n in nacks;
    }
    assert TriplesOf(nacks, Groups(nacks)) == want;
  }

  function Image<A, B>(xs: set<A>, f: A -> B): set<B>
  {
    set x | x in xs :: f(x)
  }

  /** A map that is one-to-one on a set keeps the set's size. */
  lemma {:induction false} InjectiveImageCard<A, B>(xs: set<A>, f: A -> B)
    requires forall x, y :: x in xs && y in xs && f(x) == f(y) ==> x == y
    ensures |Image(xs, f)| == |xs|
  {
    if xs != {} {
      var x :| x in xs;
      var rest := xs - {x};
      InjectiveImageCard(rest, f);
      assert Image(xs, f) == Image(rest, f) + {f(x)};
      assert f(x) !in Image(rest, f);
    }
  }

  /** The pairs an outlet is rejected in today, no outlet of an app having
      two reasons. */
  ghost predicate OneReasonPerOutlet(dfToday: seq<Record>)
  {
    forall r1, r2 ::
      (r1 in dfToday && r2 in dfToday && IsNack(r1) && IsNack(r2) && r1.app == r2.app && r1.outlet == r2.outlet) ==>
        ExtractReason(r1.message) == ExtractReason(r2.message)
  }

  /** The distinct (app, reason, outlet) triples of today's NACK rows. */
  function NackTriples(dfToday: seq<Record>): set<(string, string, string)>
  {
    set r | r in dfToday && IsNack(r) :: (r.app, ExtractReason(r.message), r.outlet)
  }

  /** The distinct (app, outlet) pairs of today's NACK rows. */
  function NackPairs(dfToday: seq<Record>): set<(string, string)>
  {
    set r | r in dfToday && IsNack(r) :: (r.app, r.outlet)
  }

  /** With one reason per rejected outlet, dropping the reason from the
      (app, reason, outlet) triples loses none of them. */
  lemma TriplesAsPairs(dfToday: seq<Record>)
    requires OneReasonPerOutlet(dfToday)
    ensures |NackTriples(dfToday)| == |NackPairs(dfToday)|
  {
    var triples, pairs := NackTriples(dfToday), NackPairs(dfToday);
    var drop := (t: (string, string, string)) => (t.0, t.2);
    forall t1, t2 | t1 in triples && t2 in triples && drop(t1) == drop(t2) ensures t1 == t2 {
      var r1 :| r1 in dfToday && IsNack(r1) && t1 == (r1.app, ExtractReason(r1.message), r1.outlet);
      var r2 :| r2 in dfToday && IsNack(r2) && t2 == (r2.app, ExtractReason(r2.message), r2.outlet);
    }
    InjectiveImageCard(triples, drop);
    forall p | p in pairs ensures p in Image(triples, drop) {
      var r :| r in dfToday && IsNack(r) && p == (r.app, r.outlet);
      assert drop((r.app, ExtractReason(r.message), r.outlet)) == p;
    }
    assert Image(triples, drop) == pairs;
  }

  /** When no outlet of an app is rejected for two different reasons today,
      the "Total Rejected Stores" figure is the number of distinct rejected
      (app, outlet) pairs. */
  lemma TotalRejectedIsPairs(dfToday: seq<Record>, summary: seq<NackRow>, totalRejected: int)
    requires forall i, j :: 0 <= i < j < |summary| ==>
               PairLess((summary[i].app, summary[i].reason), (summary[j].app, summary[j].reason))
    requires RowKeys(summary) == Groups(NackRecords(dfToday))
    requires forall row :: row in summary ==> row.storeCount == |GroupOutlets(NackRecords(dfToday), row.app, row.reason)|
    requires totalRejected == SumCounts(summary)
    requires OneReasonPerOutlet(dfToday)
    ensures totalRejected == |NackPairs(dfToday)|
  {
    TotalRejectedIsTriples(dfToday, summary, totalRejected);
    TriplesAsPairs(dfToday);
    assert NackTriples(dfToday) == set r | r in dfToday && IsNack(r) :: (r.app, ExtractReason(r.message), r.outlet);
  }
}
