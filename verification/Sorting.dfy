/** A stable sort, for any order. */
module Sorting {
  /** x in front of the first element that does not come before it. */
  function Insert<T>(before: (T, T) -> bool, x: T, sorted: seq<T>): (r: seq<T>)
    ensures multiset(r) == multiset{x} + multiset(sorted)
  {
    if sorted == [] || !before(sorted[0], x) then [x] + sorted
    else
      assert sorted == [sorted[0]] + sorted[1..];
      [sorted[0]] + Insert(before, x, sorted[1..])
  }

  function Sort<T>(before: (T, T) -> bool, s: seq<T>): (r: seq<T>)
    ensures multiset(r) == multiset(s)
  {
    if s == [] then []
    else
      assert s == [s[0]] + s[1..];
      Insert(before, s[0], Sort(before, s[1..]))
  }

  /** Of two elements at most one comes before the other, and not coming before is transitive. */
  ghost predicate IsOrder<T(!new)>(before: (T, T) -> bool) {
    && (forall a: T, b: T :: !(before(a, b) && before(b, a)))
    && (forall a: T, b: T, c: T :: !before(b, a) && !before(c, b) ==> !before(c, a))
  }

  predicate Sorted<T>(before: (T, T) -> bool, s: seq<T>) {
    forall i, j :: 0 <= i < j < |s| ==> !before(s[j], s[i])
  }

  lemma {:induction false} InsertKeepsSorted<T(!new)>(before: (T, T) -> bool, x: T, sorted: seq<T>)
    requires IsOrder(before) && Sorted(before, sorted)
    ensures Sorted(before, Insert(before, x, sorted))
  {
    if sorted != [] {
      if before(sorted[0], x) {
        InsertKeepsSorted(before, x, sorted[1..]);
        var r := Insert(before, x, sorted[1..]);
        forall j | 0 <= j < |r| ensures !before(r[j], sorted[0]) {
          assert r[j] in multiset(r);
          if r[j] != x {
            var k :| 0 <= k < |sorted[1..]| && sorted[1..][k] == r[j];
            assert sorted[k + 1] == r[j];
          }
        }
      } else {
        forall j | 0 <= j < |sorted| ensures !before(sorted[j], x) {
          if j > 0 { assert !before(sorted[j], sorted[0]); }
        }
      }
    }
  }

  lemma {:induction false} SortSorts<T(!new)>(before: (T, T) -> bool, s: seq<T>)
    requires IsOrder(before)
    ensures Sorted(before, Sort(before, s)) && multiset(Sort(before, s)) == multiset(s)
  {
    if s != [] {
      SortSorts(before, s[1..]);
      InsertKeepsSorted(before, s[0], Sort(before, s[1..]));
    }
  }

  lemma {:induction false} OccursOnce<T>(s: seq<T>, x: T)
    requires forall i, j :: 0 <= i < j < |s| ==> s[i] != s[j]
    ensures multiset(s)[x] <= 1
  {
    if s != [] {
      assert s == [s[0]] + s[1..];
      OccursOnce(s[1..], x);
      if s[0] == x { assert x !in s[1..]; }
    }
  }

  lemma TwiceMeans<T>(s: seq<T>, i: nat, j: nat)
    requires i < j < |s| && s[i] == s[j]
    ensures multiset(s)[s[i]] >= 2
  {
    assert s == (s[..i] + [s[i]]) + s[i + 1..];
    assert s[j] in s[i + 1..];
  }
}
