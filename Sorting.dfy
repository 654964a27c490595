/**
  The `sorted(String::compareToIgnoreCase)` step of the plugin's stream
  pipelines. The stream comes from a `HashSet`, so Java promises no order
  among names that compare equal ignoring case. The model is an insertion
  sort that keeps such names in their enumeration order; since that order
  is a parameter, every order of ties is covered.
 */
module Sorting {
  import opened JavaString

  /** Every earlier name is at most every later name, ignoring case. */
  ghost predicate SortedIgnoreCase(s: seq<string>) {
    forall i, j :: 0 <= i < j < |s| ==> CompareIgnoreCase(s[i], s[j]) <= 0
  }

  /** Inserts `x` in front of the first name it does not exceed. */
  function Insert(x: string, s: seq<string>): (r: seq<string>)
    ensures multiset(r) == multiset(s) + multiset{x}
  {
    if s == [] || CompareIgnoreCase(x, s[0]) <= 0 then [x] + s
    else
      assert s == [s[0]] + s[1..];
      [s[0]] + Insert(x, s[1..])
  }

  /** Inserting into a sorted sequence keeps it sorted. */
  lemma {:induction false} InsertSorted(x: string, s: seq<string>)
    requires SortedIgnoreCase(s)
    ensures SortedIgnoreCase(Insert(x, s))
  {
    var r := Insert(x, s);
    if s == [] {
    } else if CompareIgnoreCase(x, s[0]) <= 0 {
      forall j | 0 < j < |r|
        ensures CompareIgnoreCase(r[0], r[j]) <= 0
      {
        assert r[j] == s[j - 1];
        if j > 1 {
          CompareTransitive(x, s[0], s[j - 1]);
        }
      }
    } else {
      var tail := Insert(x, s[1..]);
      InsertSorted(x, s[1..]);
      CompareTotal(x, s[0]);
      forall j | 0 <= j < |tail|
        ensures CompareIgnoreCase(s[0], tail[j]) <= 0
      {
        assert tail[j] in multiset(tail);
        if tail[j] != x {
          assert tail[j] in multiset(s[1..]);
          var k :| 0 <= k < |s[1..]| && s[1..][k] == tail[j];
          assert s[k + 1] == tail[j];
        }
      }
      assert r == [s[0]] + tail;
    }
  }

  /** The case-insensitive insertion sort; it permutes its input. */
  function SortIgnoreCase(s: seq<string>): (r: seq<string>)
    ensures multiset(r) == multiset(s)
  {
    if s == [] then []
    else
      assert multiset(s) == multiset(s[1..]) + multiset{s[0]} by {
        assert s == [s[0]] + s[1..];
      }
      Insert(s[0], SortIgnoreCase(s[1..]))
  }

  /** The result of the sort is sorted ignoring case. */
  lemma {:induction false} SortIgnoreCaseSorted(s: seq<string>)
    ensures SortedIgnoreCase(SortIgnoreCase(s))
  {
    if s != [] {
      SortIgnoreCaseSorted(s[1..]);
      InsertSorted(s[0], SortIgnoreCase(s[1..]));
    }
  }
}
