/** Character strings as Python handles them in the dashboard: ASCII case
    mapping (str.lower / str.upper), substring search (the `in` operator)
    and code-point ordering (what pandas uses to sort group labels). */
module Strings {

  function LowerChar(c: char): char
  {
    if 'A' <= c <= 'Z' then (c as int + 32) as char else c
  }

  function UpperChar(c: char): char
  {
    if 'a' <= c <= 'z' then (c as int - 32) as char else c
  }

  /** str.lower(), restricted to the ASCII letters. */
  function Lower(s: string): (lower: string)
    ensures |lower| == |s|
    ensures forall i :: 0 <= i < |lower| ==> !('A' <= lower[i] <= 'Z')
  {
    seq(|s|, i requires 0 <= i < |s| => LowerChar(s[i]))
  }

  /** str.upper(), restricted to the ASCII letters. */
  function Upper(s: string): (upper: string)
    ensures |upper| == |s|
    ensures forall i :: 0 <= i < |upper| ==> !('a' <= upper[i] <= 'z')
  {
    seq(|s|, i requires 0 <= i < |s| => UpperChar(s[i]))
  }

  /** Lower-casing forgets any earlier change of case. */
  lemma LowerOfUpper(s: string)
    ensures Lower(Upper(s)) == Lower(s)
  {
    assert forall i | 0 <= i < |s| :: Lower(Upper(s))[i] == Lower(s)[i];
  }

  predicate StartsWith(s: string, t: string)
  {
    |t| <= |s| && s[..|t|] == t
  }

  /** Python's `t in s`: t occurs in s at some position. */
  predicate Contains(s: string, t: string)
    ensures Contains(s, t) ==> |t| <= |s|
    ensures t == [] ==> Contains(s, t)
    decreases |s|
  {
    StartsWith(s, t) || (|s| > 0 && Contains(s[1..], t))
  }

  predicate OccursAt(s: string, t: string, i: int)
  {
    0 <= i <= |s| - |t| && s[i..i + |t|] == t
  }

  /** The recursive search finds exactly the occurrences at some index. */
  lemma {:induction false} ContainsAt(s: string, t: string)
    ensures Contains(s, t) <==> exists i :: OccursAt(s, t, i)
    decreases |s|
  {
    if StartsWith(s, t) {
      assert OccursAt(s, t, 0);
    }
    if |s| > 0 {
      ContainsAt(s[1..], t);
      if Contains(s[1..], t) {
        var i :| OccursAt(s[1..], t, i);
        assert s[1..][i..i + |t|] == s[i + 1..i + 1 + |t|];
        assert OccursAt(s, t, i + 1);
      }
      if exists i :: OccursAt(s, t, i) {
        var i :| OccursAt(s, t, i);
        if i > 0 {
          assert s[1..][i - 1..i - 1 + |t|] == s[i..i + |t|];
          assert OccursAt(s[1..], t, i - 1);
        }
      }
    }
  }

  /** Python's `a < b` on str: lexicographic on code points, a proper
      prefix being smaller. */
  predicate StrLess(a: string, b: string)
    ensures StrLess(a, b) ==> a != b
    ensures |a| < |b| && a == b[..|a|] ==> StrLess(a, b)
    decreases |a|
  {
    if |a| == 0 then |b| > 0
    else if |b| == 0 then false
    else if a[0] != b[0] then a[0] < b[0]
    else StrLess(a[1..], b[1..])
  }

  lemma {:induction false} StrLessIrreflexive(a: string)
    ensures !StrLess(a, a)
    decreases |a|
  {
    if |a| > 0 {
      StrLessIrreflexive(a[1..]);
    }
  }

  lemma {:induction false} StrLessTransitive(a: string, b: string, c: string)
    requires StrLess(a, b) && StrLess(b, c)
    ensures StrLess(a, c)
    decreases |a|
  {
    if |a| > 0 && |b| > 0 && |c| > 0 && a[0] == b[0] == c[0] {
      StrLessTransitive(a[1..], b[1..], c[1..]);
    }
  }

  lemma {:induction false} StrLessTotal(a: string, b: string)
    requires a != b
    ensures StrLess(a, b) || StrLess(b, a)
    decreases |a|
  {
    if |a| > 0 && |b| > 0 && a[0] == b[0] {
      assert a == [a[0]] + a[1..] && b == [b[0]] + b[1..];
      StrLessTotal(a[1..], b[1..]);
    }
  }

  /** Two strings that agree before position k and differ at k are ordered
      by their characters at k. */
  lemma {:induction false} StrLessAt(a: string, b: string, k: nat)
    requires k < |a| && k < |b| && a[..k] == b[..k] && a[k] < b[k]
    ensures StrLess(a, b)
    decreases k
  {
    if k > 0 {
      assert a[0] == a[..k][0] == b[..k][0] == b[0];
      assert a[1..][..k - 1] == a[..k][1..] == b[..k][1..] == b[1..][..k - 1];
      StrLessAt(a[1..], b[1..], k - 1);
    }
  }

  /** Strictly increasing under StrLess, hence also free of duplicates. */
  ghost predicate StrictlySorted(s: seq<string>)
  {
    forall i, j :: 0 <= i < j < |s| ==> StrLess(s[i], s[j])
  }

  /** A sequence increasing at every step is strictly sorted. */
  lemma {:induction false} StepsSorted(s: seq<string>)
    requires forall i :: 0 <= i < |s| - 1 ==> StrLess(s[i], s[i + 1])
    ensures StrictlySorted(s)
  {
    if |s| > 1 {
      var t := s[1..];
      StepsSorted(t);
      forall j | 1 < j < |s| ensures StrLess(s[0], s[j]) {
        assert t[0] == s[1] && t[j - 1] == s[j];
        StrLessTransitive(s[0], s[1], s[j]);
      }
      forall i, j | 0 <= i < j < |s| ensures StrLess(s[i], s[j]) {
        if i > 0 {
          assert s[i] == t[i - 1] && s[j] == t[j - 1];
        }
      }
    }
  }

  /** Adds x to a strictly sorted sequence at its place (no change when x is
      already there): the sorted index pandas builds for group keys. */
  function InsertSorted(s: seq<string>, x: string): (r: seq<string>)
    requires StrictlySorted(s)
    ensures StrictlySorted(r)
    ensures forall y :: y in r <==> y in s || y == x
  {
    if s == [] then [x]
    else if s[0] == x then s
    else if StrLess(x, s[0]) then
      assert forall j | 0 <= j < |s| :: StrLess(x, s[j]) by {
        forall j | 0 < j < |s| ensures StrLess(x, s[j]) {
          StrLessTransitive(x, s[0], s[j]);
        }
      }
      [x] + s
    else
      StrLessTotal(x, s[0]);
      var rest := InsertSorted(s[1..], x);
      assert forall y | y in rest :: StrLess(s[0], y);
      [s[0]] + rest
  }

  /** The sorted index pandas builds for group keys (and for the union of
      two group results): every key once, in ascending string order. */
  method SortedKeys(keys: set<string>) returns (s: seq<string>)
    ensures StrictlySorted(s)
    ensures forall a :: a in s <==> a in keys
  {
    s := [];
    var rest := keys;
    while rest != {}
      invariant StrictlySorted(s)
      invariant forall a :: a in keys <==> a in s || a in rest
      decreases rest
    {
      var a :| a in rest;
      s := InsertSorted(s, a);
      rest := rest - {a};
    }
  }

  /** In a + [sep] + b with no sep inside a, the first sep is at |a|. */
  lemma FirstSeparator(a: string, b: string, sep: char)
    requires sep !in a
    ensures (a + [sep] + b)[|a|] == sep
    ensures forall k :: 0 <= k < |a| ==> (a + [sep] + b)[k] != sep
  {
    assert forall k :: 0 <= k < |a| ==> (a + [sep] + b)[k] == a[k];
  }

  /** Two strings built as a + [sep] + b, with no sep inside the a parts,
      are equal exactly when both parts are. */
  lemma SplitAtSeparator(a1: string, b1: string, a2: string, b2: string, sep: char)
    requires sep !in a1 && sep !in a2
    ensures a1 + [sep] + b1 == a2 + [sep] + b2 <==> a1 == a2 && b1 == b2
  {
    var l, r := a1 + [sep] + b1, a2 + [sep] + b2;
    FirstSeparator(a1, b1, sep);
    FirstSeparator(a2, b2, sep);
    if l == r {
      assert |a1| == |a2|;
      assert a1 == l[..|a1|] && a2 == r[..|a2|];
      assert b1 == l[|a1| + 1..] && b2 == r[|a2| + 1..];
    }
  }
}
