/** get_missing_outlets (on_search_dashboard.py:38-45): the rows of each day
    whose 'Outlet Name|Buyer App' key does not occur on the other day. */
module MissingOutlets {
  import opened Records
  import opened Strings
  import opened Seqs

  /** The 'key' column: Outlet Name + "|" + Buyer App. */
  function OutletKey(r: Record): (key: string)
    ensures |key| == |r.outlet| + 1 + |r.app|
    ensures key[..|r.outlet|] == r.outlet && key[|r.outlet|] == '|' && key[|r.outlet| + 1..] == r.app
  {
    r.outlet + "|" + r.app
  }

  /** set(df['Outlet Name'] + "|" + df['Buyer App']). */
  function OutletKeys(df: seq<Record>): (keys: set<string>)
    ensures keys == {} <==> df == []
  {
    var keys := set r | r in df :: OutletKey(r);
    assert df != [] ==> OutletKey(df[0]) in keys;
    keys
  }

  /** df[df['key'].isin(keys)]. */
  function KeyIn(df: seq<Record>, keys: set<string>): (selected: seq<Record>)
    ensures forall r :: r in selected <==> r in df && OutletKey(r) in keys
  {
    FilterMembership(df, (r: Record) => OutletKey(r) in keys);
    Filter(df, (r: Record) => OutletKey(r) in keys)
  }

  /** set(df['Outlet Name'] + "|" + df['Buyer App']) built row by row. */
  method KeySet(df: seq<Record>) returns (keys: set<string>)
    ensures keys == OutletKeys(df)
  {
    keys := {};
    for i := 0 to |df|
      invariant keys == OutletKeys(df[..i])
    {
      assert df[..i + 1] == df[..i] + [df[i]];
      keys := keys + {OutletKey(df[i])};
    }
    assert df[..|df|] == df;
  }

  /** Rows of df whose key lies in keys, in their original order. */
  method SelectByKey(df: seq<Record>, keys: set<string>) returns (selected: seq<Record>)
    ensures selected == KeyIn(df, keys)
  {
    selected := [];
    for i := 0 to |df|
      invariant selected == KeyIn(df[..i], keys)
    {
      assert df[..i + 1] == df[..i] + [df[i]];
      FilterSnoc(df[..i], df[i], (r: Record) => OutletKey(r) in keys);
      if OutletKey(df[i]) in keys {
        selected := selected + [df[i]];
      }
    }
    assert df[..|df|] == df;
  }

  /** get_missing_outlets(df1, df2): only_in_1 keeps the rows of df1 whose
      key is in key1 - key2, only_in_2 the rows of df2 whose key is in
      key2 - key1. */
  method GetMissingOutlets(df1: seq<Record>, df2: seq<Record>)
    returns (onlyIn1: seq<Record>, onlyIn2: seq<Record>)
    ensures onlyIn1 == KeyIn(df1, OutletKeys(df1) - OutletKeys(df2))
    ensures onlyIn2 == KeyIn(df2, OutletKeys(df2) - OutletKeys(df1))
  {
    var key1 := KeySet(df1);
    var key2 := KeySet(df2);
    onlyIn1 := SelectByKey(df1, key1 - key2);
    onlyIn2 := SelectByKey(df2, key2 - key1);
  }

  /** A row of day 1 is reported missing on day 2 exactly when its key does
      not occur on day 2, and symmetrically; the two reports share no key;
      each report keeps the relative order of its day's rows. */
  lemma MissingOutletsSpec(df1: seq<Record>, df2: seq<Record>)
    ensures forall r :: r in KeyIn(df1, OutletKeys(df1) - OutletKeys(df2)) <==> r in df1 && OutletKey(r) !in OutletKeys(df2)
    ensures forall r :: r in KeyIn(df2, OutletKeys(df2) - OutletKeys(df1)) <==> r in df2 && OutletKey(r) !in OutletKeys(df1)
    ensures OutletKeys(KeyIn(df1, OutletKeys(df1) - OutletKeys(df2))) !! OutletKeys(KeyIn(df2, OutletKeys(df2) - OutletKeys(df1)))
  {
    var p1 := (r: Record) => OutletKey(r) in OutletKeys(df1) - OutletKeys(df2);
    var p2 := (r: Record) => OutletKey(r) in OutletKeys(df2) - OutletKeys(df1);
    FilterMembership(df1, p1);
    FilterMembership(df2, p2);
  }

  /** Selecting by key distributes over concatenation: the report for a day
      is the reports for its parts, in order. */
  lemma KeyInPreservesOrder(s: seq<Record>, t: seq<Record>, keys: set<string>)
    ensures KeyIn(s + t, keys) == KeyIn(s, keys) + KeyIn(t, keys)
  {
    FilterConcat(s, t, (r: Record) => OutletKey(r) in keys);
  }

  /** With no '|' inside outlet names, a key is absent from a day exactly
      when no row of that day has the same outlet and app. */
  lemma KeyAbsentIffPairAbsent(r: Record, df: seq<Record>)
    requires '|' !in r.outlet
    requires forall s :: s in df ==> '|' !in s.outlet
    ensures OutletKey(r) !in OutletKeys(df) <==>
            forall s :: s in df ==> !(s.outlet == r.outlet && s.app == r.app)
  {
    forall s | s in df
      ensures OutletKey(s) == OutletKey(r) <==> s.outlet == r.outlet && s.app == r.app
    {
      SplitAtSeparator(s.outlet, s.app, r.outlet, r.app, '|');
    }
    if OutletKey(r) in OutletKeys(df) {
      var s :| s in df && OutletKey(s) == OutletKey(r);
      assert s.outlet == r.outlet && s.app == r.app;
    }
  }

  /** Keys are plain strings: outlet "A|B" of app "C" on day 1 counts as
      present on day 2 through outlet "A" of app "B|C", so it is not reported. */
  lemma OutletKeyCollision(d1: CalendarDate, d2: CalendarDate)
    ensures var r1 := Record(d1, "A|B", "C", None, None, None);
            var r2 := Record(d2, "A", "B|C", None, None, None);
            r1 !in KeyIn([r1], OutletKeys([r1]) - OutletKeys([r2]))
  {
    var r1 := Record(d1, "A|B", "C", None, None, None);
    var r2 := Record(d2, "A", "B|C", None, None, None);
    assert OutletKey(r1) == "A|B|C" == OutletKey(r2);
    assert OutletKeys([r1]) - OutletKeys([r2]) == {};
    FilterMembership([r1], (r: Record) => OutletKey(r) in OutletKeys([r1]) - OutletKeys([r2]));
  }
}
