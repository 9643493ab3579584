/** Sequences without repetition, the set of the elements of a sequence, and slices.
    A sequence has no repetition exactly when it has as many elements as positions, and exactly
    when no element is counted twice.
    Both are used wherever ids or names must not come twice. */
module Sequences {

  predicate Distinct<T(==)>(s: seq<T>) {
    forall i, j | 0 <= i < j < |s| :: s[i] != s[j]
  }

  function Elements<T(==)>(s: seq<T>): set<T> {
    set x | x in s
  }

  /** `s[:n]`, where a negative bound counts from the end. */
  function Take<T>(s: seq<T>, n: int): seq<T> {
    if n >= 0 then if n <= |s| then s[..n] else s
    else if -n <= |s| then s[..|s| + n] else []
  }

  /** A slice is the start of the sequence: as many as asked for, or all but as many, or as there are. */
  lemma TakeMeaning<T>(s: seq<T>, n: int)
    ensures Take(s, n) <= s
    ensures |Take(s, n)| == if n >= |s| then |s| else if n >= 0 then n else if n > -|s| then |s| + n else 0
  {
  }

  lemma {:induction false} ElementCount<T>(s: seq<T>)
    ensures |Elements(s)| <= |s|
    ensures |Elements(s)| == |s| <==> Distinct(s)
  {
    if s != [] {
      var before, last := s[..|s| - 1], s[|s| - 1];
      ElementCount(before);
      assert s == before + [last];
      assert Elements(s) == Elements(before) + {last};
      if last in before {
        assert Elements(s) == Elements(before);
        assert !Distinct(s) by {
          var i :| 0 <= i < |before| && before[i] == last;
          assert s[i] == s[|s| - 1];
        }
      } else {
        assert Distinct(s) <==> Distinct(before);
      }
    }
  }

  lemma {:induction false} DistinctCounts<T(!new)>(s: seq<T>)
    ensures Distinct(s) <==> forall x :: multiset(s)[x] <= 1
  {
    if s != [] {
      var init, last := s[..|s| - 1], s[|s| - 1];
      assert s == init + [last];
      DistinctCounts(init);
      if Distinct(s) {
        assert last !in init;
      } else if Distinct(init) {
        assert last in init;
        assert multiset(s)[last] == multiset(init)[last] + 1 >= 2;
      } else {
        var x :| multiset(init)[x] > 1;
        assert multiset(s)[x] > 1;
      }
    }
  }

  lemma SubsetSize<T>(a: set<T>, b: set<T>)
    requires a <= b
    ensures |a| <= |b| && (|a| == |b| ==> a == b)
  {
    assert b == a + (b - a);
  }
}
