/** Row selection as pandas does it with a boolean mask: the rows that
    satisfy a condition, in their original order. */
module Seqs {

  function Filter<T>(s: seq<T>, p: T -> bool): (selected: seq<T>)
    ensures |selected| <= |s|
    ensures forall i :: 0 <= i < |selected| ==> p(selected[i])
  {
    if s == [] then [] else Filter(s[..|s| - 1], p) + (if p(s[|s| - 1]) then [s[|s| - 1]] else [])
  }

  /** A row is selected exactly when it is in the input and passes the mask. */
  lemma {:induction false} FilterMembership<T>(s: seq<T>, p: T -> bool)
    ensures forall x :: x in Filter(s, p) <==> x in s && p(x)
  {
    if s != [] {
      FilterMembership(s[..|s| - 1], p);
      assert s == s[..|s| - 1] + [s[|s| - 1]];
    }
  }

  /** Masking distributes over concatenation, so relative order is kept. */
  lemma {:induction false} FilterConcat<T>(s: seq<T>, t: seq<T>, p: T -> bool)
    ensures Filter(s + t, p) == Filter(s, p) + Filter(t, p)
    decreases |t|
  {
    if t == [] {
      assert s + t == s;
    } else {
      var u := t[..|t| - 1];
      assert (s + t)[..|s + t| - 1] == s + u;
      FilterConcat(s, u, p);
    }
  }

  /** Appending one row: the step a loop over the rows takes. */
  lemma FilterSnoc<T>(s: seq<T>, x: T, p: T -> bool)
    ensures Filter(s + [x], p) == Filter(s, p) + (if p(x) then [x] else [])
  {
    assert (s + [x])[..|s|] == s;
  }

  ghost predicate NoDuplicates<T>(s: seq<T>)
  {
    forall i, j :: 0 <= i < j < |s| ==> s[i] != s[j]
  }

  /** A sequence without duplicates has as many elements as its set. */
  lemma {:induction false} NoDuplicatesCard<T>(s: seq<T>)
    requires NoDuplicates(s)
    ensures |set x | x in s| == |s|
  {
    if s != [] {
      var u := s[..|s| - 1];
      NoDuplicatesCard(u);
      assert s == u + [s[|s| - 1]];
      assert (set x | x in s) == (set x | x in u) + {s[|s| - 1]};
      assert s[|s| - 1] !in u;
    }
  }
}

/** drop_duplicates(subset=key) with pandas' default keep='first', for any
    key column: a row is kept when no earlier row has its key. */
module Dedupe {

  function KeysOf<T(==), K(==)>(s: seq<T>, key: T -> K): set<K>
  {
    set x | x in s :: key(x)
  }

  ghost predicate KeysUnique<T, K>(s: seq<T>, key: T -> K)
  {
    forall i, j :: 0 <= i < j < |s| ==> key(s[i]) != key(s[j])
  }

  function DropDuplicates<T(==), K(==)>(s: seq<T>, key: T -> K): (kept: seq<T>)
    ensures |kept| <= |s|
    ensures kept == [] <==> s == []
  {
    if s == [] then []
    else
      var kept := DropDuplicates(s[..|s| - 1], key);
      var last := s[|s| - 1];
      if key(last) in KeysOf(kept, key) then kept else kept + [last]
  }

  /** Position of the first row carrying key k, or |s| when none does. */
  function FirstIndex<T(==), K(==)>(s: seq<T>, key: T -> K, k: K): (i: nat)
    ensures i <= |s|
    ensures i < |s| <==> k in KeysOf(s, key)
    ensures i < |s| ==> key(s[i]) == k
    ensures forall j :: 0 <= j < i ==> key(s[j]) != k
  {
    if s == [] then 0
    else if key(s[0]) == k then 0
    else
      assert forall x | x in s && x != s[0] :: x in s[1..];
      1 + FirstIndex(s[1..], key, k)
  }

  /** Appending a row adds its key. */
  lemma KeysOfSnoc<T, K>(s: seq<T>, x: T, key: T -> K)
    ensures KeysOf(s + [x], key) == KeysOf(s, key) + {key(x)}
  {
  }

  /** A row appended after the others does not move an earlier first occurrence. */
  lemma FirstIndexSnoc<T, K>(s: seq<T>, x: T, key: T -> K, k: K)
    requires k in KeysOf(s, key)
    ensures FirstIndex(s + [x], key, k) == FirstIndex(s, key, k)
  {
    var i, j := FirstIndex(s + [x], key, k), FirstIndex(s, key, k);
    assert (s + [x])[j] == s[j];
  }

  /** The kept rows are input rows, their keys are unique and they are the
      keys of the input. */
  lemma {:induction false} DropDuplicatesKeys<T, K>(s: seq<T>, key: T -> K)
    ensures forall x :: x in DropDuplicates(s, key) ==> x in s
    ensures KeysUnique(DropDuplicates(s, key), key)
    ensures KeysOf(DropDuplicates(s, key), key) == KeysOf(s, key)
  {
    if s != [] {
      var u, x := s[..|s| - 1], s[|s| - 1];
      assert s == u + [x];
      DropDuplicatesKeys(u, key);
      assert KeysOf(s, key) == KeysOf(u, key) + {key(x)};
      var kept := DropDuplicates(u, key);
      if key(x) !in KeysOf(kept, key) {
        forall i | 0 <= i < |kept| ensures key(kept[i]) != key(x) {
          assert kept[i] in kept;
        }
      }
    }
  }

  /** Each kept row is the first input row carrying its key. */
  lemma {:induction false} DropDuplicatesKeepsFirst<T, K>(s: seq<T>, key: T -> K)
    ensures forall i :: 0 <= i < |DropDuplicates(s, key)| ==>
              FirstIndex(s, key, key(DropDuplicates(s, key)[i])) < |s| &&
              s[FirstIndex(s, key, key(DropDuplicates(s, key)[i]))] == DropDuplicates(s, key)[i]
  {
    if s != [] {
      var u, x := s[..|s| - 1], s[|s| - 1];
      assert s == u + [x];
      var kept := DropDuplicates(u, key);
      DropDuplicatesKeepsFirst(u, key);
      forall i | 0 <= i < |kept|
        ensures FirstIndex(s, key, key(kept[i])) == FirstIndex(u, key, key(kept[i]))
      {
        FirstIndexSnoc(u, x, key, key(kept[i]));
      }
      if key(x) !in KeysOf(kept, key) {
        DropDuplicatesKeys(u, key);
        assert FirstIndex(s, key, key(x)) == |u|;
      }
    }
  }

  /** The kept rows come in the order of their keys' first occurrences. */
  lemma {:induction false} DropDuplicatesKeepsOrder<T, K>(s: seq<T>, key: T -> K)
    ensures forall i, j :: 0 <= i < j < |DropDuplicates(s, key)| ==>
              FirstIndex(s, key, key(DropDuplicates(s, key)[i])) < FirstIndex(s, key, key(DropDuplicates(s, key)[j]))
  {
    if s != [] {
      var u, x := s[..|s| - 1], s[|s| - 1];
      assert s == u + [x];
      var kept := DropDuplicates(u, key);
      DropDuplicatesKeepsOrder(u, key);
      DropDuplicatesKeepsFirst(u, key);
      forall i | 0 <= i < |kept|
        ensures FirstIndex(s, key, key(kept[i])) == FirstIndex(u, key, key(kept[i])) < |u|
      {
        FirstIndexSnoc(u, x, key, key(kept[i]));
      }
      if key(x) !in KeysOf(kept, key) {
        DropDuplicatesKeys(u, key);
        assert FirstIndex(s, key, key(x)) == |u|;
      }
    }
  }

  /** A table whose keys are already unique passes drop_duplicates unchanged. */
  lemma {:induction false} DropDuplicatesOfUnique<T, K>(s: seq<T>, key: T -> K)
    requires KeysUnique(s, key)
    ensures DropDuplicates(s, key) == s
  {
    if s != [] {
      var u, x := s[..|s| - 1], s[|s| - 1];
      DropDuplicatesOfUnique(u, key);
      assert key(x) !in KeysOf(u, key) by {
        forall y | y in u ensures key(y) != key(x) {
          var i :| 0 <= i < |u| && u[i] == y;
          assert s[i] == y;
        }
      }
      assert s == u + [x];
    }
  }
}
