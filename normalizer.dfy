/** load_data (on_search_dashboard.py:16-23) after the sheet is read: keep
    the rows that have a date, an outlet and a buyer app, then drop every
    row whose 'dedupe_key' string was already seen. */
module Normalizer {
  import opened Records
  import opened Strings
  import opened Dedupe

  predicate Complete(r: Row)
  {
    r.searched.Some? && r.outlet.Some? && r.app.Some?
  }

  function ToRecord(r: Row): Record
    requires Complete(r)
  {
    Record(r.searched.value, r.outlet.value, r.app.value, r.city, r.status, r.message)
  }

  /** A record put back as a sheet row, to feed the normaliser its own output. */
  function AsRow(x: Record): Row
  {
    Row(Some(x.searchedOn), Some(x.outlet), Some(x.app), x.city, x.status, x.message)
  }

  function AsRows(xs: seq<Record>): seq<Row>
  {
    seq(|xs|, i requires 0 <= i < |xs| => AsRow(xs[i]))
  }

  /** dropna(subset=['searched_date', 'Outlet Name', 'Buyer App']). */
  function DropIncomplete(rows: seq<Row>): (kept: seq<Record>)
    ensures |kept| <= |rows|
    ensures |kept| == |rows| <==> forall i :: 0 <= i < |rows| ==> Complete(rows[i])
  {
    if rows == [] then []
    else
      var last := rows[|rows| - 1];
      DropIncomplete(rows[..|rows| - 1]) + (if Complete(last) then [ToRecord(last)] else [])
  }

  /** The 'dedupe_key' column: searched_date + "-" + Outlet Name + "-" + Buyer App. */
  function DedupeKey(r: Record): (key: string)
    ensures |key| == 12 + |r.outlet| + |r.app|
    ensures key[..10] == SearchedDate(r) && key[10] == '-' && key[11..11 + |r.outlet|] == r.outlet
    ensures key[11 + |r.outlet|] == '-' && key[12 + |r.outlet|..] == r.app
  {
    SearchedDate(r) + "-" + r.outlet + "-" + r.app
  }

  /** load_data's table: dropna, then drop_duplicates on the dedupe key. */
  function Normalize(rows: seq<Row>): (df: seq<Record>)
    ensures |df| <= |rows|
    ensures KeysUnique(df, DedupeKey)
  {
    DropDuplicatesKeys(DropIncomplete(rows), DedupeKey);
    DropDuplicates(DropIncomplete(rows), DedupeKey)
  }

  /** Every kept record is an input row that has date, outlet and app, and
      every such input row survives dropna. */
  lemma {:induction false} DropIncompleteRows(rows: seq<Row>)
    ensures forall x :: x in DropIncomplete(rows) ==> AsRow(x) in rows
    ensures forall r :: r in rows && Complete(r) ==> ToRecord(r) in DropIncomplete(rows)
  {
    if rows != [] {
      var u := rows[..|rows| - 1];
      DropIncompleteRows(u);
      assert rows == u + [rows[|rows| - 1]];
    }
  }

  /** Already-complete records pass dropna unchanged. */
  lemma {:induction false} DropIncompleteOfRecords(xs: seq<Record>)
    ensures DropIncomplete(AsRows(xs)) == xs
  {
    if xs != [] {
      var u := xs[..|xs| - 1];
      DropIncompleteOfRecords(u);
      assert AsRows(xs)[..|xs| - 1] == AsRows(u);
    }
  }

  /** What load_data promises about its result: every kept row is an input
      row with date, outlet and app; no two kept rows share a dedupe key;
      every complete input row has its key kept; each kept row is the first
      complete input row carrying its key, and kept rows keep input order. */
  lemma NormalizeSound(rows: seq<Row>)
    ensures forall x :: x in Normalize(rows) ==> AsRow(x) in rows
    ensures KeysUnique(Normalize(rows), DedupeKey)
    ensures forall r :: r in rows && Complete(r) ==> DedupeKey(ToRecord(r)) in KeysOf(Normalize(rows), DedupeKey)
    ensures var c, d := DropIncomplete(rows), Normalize(rows);
            forall i :: 0 <= i < |d| ==>
              FirstIndex(c, DedupeKey, DedupeKey(d[i])) < |c| && c[FirstIndex(c, DedupeKey, DedupeKey(d[i]))] == d[i]
    ensures var c, d := DropIncomplete(rows), Normalize(rows);
            forall i, j :: 0 <= i < j < |d| ==>
              FirstIndex(c, DedupeKey, DedupeKey(d[i])) < FirstIndex(c, DedupeKey, DedupeKey(d[j]))
  {
    var c := DropIncomplete(rows);
    DropIncompleteRows(rows);
    DropDuplicatesKeys(c, DedupeKey);
    DropDuplicatesKeepsFirst(c, DedupeKey);
    DropDuplicatesKeepsOrder(c, DedupeKey);
    forall r | r in rows && Complete(r) ensures DedupeKey(ToRecord(r)) in KeysOf(Normalize(rows), DedupeKey) {
      assert DedupeKey(ToRecord(r)) in KeysOf(c, DedupeKey);
    }
  }

  /** Normalising already-normalised rows changes nothing. */
  lemma NormalizeIdempotent(rows: seq<Row>)
    ensures Normalize(AsRows(Normalize(rows))) == Normalize(rows)
  {
    var d := Normalize(rows);
    DropDuplicatesKeys(DropIncomplete(rows), DedupeKey);
    DropIncompleteOfRecords(d);
    DropDuplicatesOfUnique(d, DedupeKey);
  }

  /** With no '-' inside outlet names the dedupe key tells (date, outlet, app)
      triples apart. */
  lemma DedupeKeyInjective(a: Record, b: Record)
    requires '-' !in a.outlet && '-' !in b.outlet
    ensures DedupeKey(a) == DedupeKey(b) <==>
            a.searchedOn == b.searchedOn && a.outlet == b.outlet && a.app == b.app
  {
    var ka, kb := DedupeKey(a), DedupeKey(b);
    if ka == kb {
      assert Format(a.searchedOn) == ka[..10] == kb[..10] == Format(b.searchedOn);
      FormatInjective(a.searchedOn, b.searchedOn);
      assert ka[11..] == a.outlet + "-" + a.app;
      assert kb[11..] == b.outlet + "-" + b.app;
      SplitAtSeparator(a.outlet, a.app, b.outlet, b.app, '-');
    }
  }

  /** The key is a plain string, so ("A-B", "C") and ("A", "B-C") on the
      same day share one dedupe key. */
  lemma DedupeKeyCollision(d: CalendarDate)
    ensures DedupeKey(Record(d, "A-B", "C", None, None, None)) == DedupeKey(Record(d, "A", "B-C", None, None, None))
  {
    var f := Format(d);
    assert f + "-" + "A-B" + "-" + "C" == f + "-A-B-C";
    assert f + "-" + "A" + "-" + "B-C" == f + "-A-B-C";
  }

  /** Of two complete rows with one dedupe key, load_data keeps the first. */
  lemma SameKeyKeepsFirst(a: Row, b: Row)
    requires Complete(a) && Complete(b)
    requires DedupeKey(ToRecord(a)) == DedupeKey(ToRecord(b))
    ensures Normalize([a, b]) == [ToRecord(a)]
  {
    var ra, rb := ToRecord(a), ToRecord(b);
    assert DropIncomplete([a]) == [ra] by {
      assert [a][..0] == [];
    }
    assert DropIncomplete([a, b]) == [ra, rb] by {
      assert [a, b][..1] == [a];
    }
    assert DropDuplicates([ra, rb], DedupeKey) == [ra] by {
      assert [ra][..0] == [];
      assert DropDuplicates([ra], DedupeKey) == [ra];
      assert [ra, rb][..1] == [ra];
      assert DedupeKey(rb) in KeysOf([ra], DedupeKey);
    }
  }

  /** ... so load_data discards the second of the colliding rows although
      its (outlet, app) pair differs from the first. */
  lemma CollisionDropsRow(d: CalendarDate)
    ensures Normalize([Row(Some(d), Some("A-B"), Some("C"), None, None, None),
                       Row(Some(d), Some("A"), Some("B-C"), None, None, None)])
         == [Record(d, "A-B", "C", None, None, None)]
  {
    DedupeKeyCollision(d);
    SameKeyKeepsFirst(Row(Some(d), Some("A-B"), Some("C"), None, None, None),
                      Row(Some(d), Some("A"), Some("B-C"), None, None, None));
  }

  /** dropna(subset=['searched_date', 'Outlet Name', 'Buyer App']), row by row. */
  method DropNa(rows: seq<Row>) returns (complete: seq<Record>)
    ensures complete == DropIncomplete(rows)
  {
    complete := [];
    for i := 0 to |rows|
      invariant complete == DropIncomplete(rows[..i])
    {
      var row := rows[i];
      assert rows[..i + 1][..i] == rows[..i];
      if Complete(row) {
        complete := complete + [ToRecord(row)];
      }
    }
    assert rows[..|rows|] == rows;
  }

  /** drop_duplicates(subset='dedupe_key'), remembering the keys seen so far. */
  method DropDuplicateKeys(complete: seq<Record>) returns (df: seq<Record>)
    ensures df == DropDuplicates(complete, DedupeKey)
  {
    df := [];
    var seen: set<string> := {};
    for j := 0 to |complete|
      invariant df == DropDuplicates(complete[..j], DedupeKey)
      invariant seen == KeysOf(df, DedupeKey)
    {
      var rec := complete[j];
      assert complete[..j + 1][..j] == complete[..j];
      var key := DedupeKey(rec);
      if key !in seen {
        KeysOfSnoc(df, rec, DedupeKey);
        df := df + [rec];
        seen := seen + {key};
      }
    }
    assert complete[..|complete|] == complete;
  }

  /** load_data as a pipeline that reassigns the table: dropna, then
      drop_duplicates on the dedupe key. */
  method LoadData(rows: seq<Row>) returns (df: seq<Record>)
    ensures df == Normalize(rows)
  {
    var complete := DropNa(rows);
    df := DropDuplicateKeys(complete);
  }
}
