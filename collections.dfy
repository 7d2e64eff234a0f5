/** Facts about sequences, sets and multisets that the game models share. */
module Collections {

  /** No value occurs twice in `s`. */
  predicate AllDistinct<T(==)>(s: seq<T>) {
    forall i, j :: 0 <= i < j < |s| ==> s[i] != s[j]
  }

  /** The set of values of `s`, as JavaScript's `new Set(s)`. */
  function Elements<T(==)>(s: seq<T>): set<T> {
    set x | x in s
  }

  /** `s` is a reordering of `t`: same values, each as often. */
  predicate IsPermutationOf<T(==)>(s: seq<T>, t: seq<T>) {
    |s| == |t| && multiset(s) == multiset(t)
  }

  /** A sequence without repetitions has as many distinct values as elements. */
  lemma {:induction false} DistinctCard<T>(s: seq<T>)
    requires AllDistinct(s)
    ensures |Elements(s)| == |s|
  {
    if s != [] {
      assert AllDistinct(s[1..]) by {
        forall i, j | 0 <= i < j < |s[1..]| ensures s[1..][i] != s[1..][j] {
          assert s[1..][i] == s[i + 1] && s[1..][j] == s[j + 1];
        }
      }
      DistinctCard(s[1..]);
      assert Elements(s) == {s[0]} + Elements(s[1..]);
      assert s[0] !in Elements(s[1..]);
    }
  }

  /** A sequence never has more distinct values than elements. */
  lemma {:induction false} CardAtMost<T>(s: seq<T>)
    ensures |Elements(s)| <= |s|
  {
    if s != [] {
      CardAtMost(s[1..]);
      assert Elements(s) == {s[0]} + Elements(s[1..]);
    }
  }

  /** A sequence with a repeated value has fewer distinct values than elements. */
  lemma {:induction false} RepeatedCard<T>(s: seq<T>, i: nat, j: nat)
    requires i < j < |s| && s[i] == s[j]
    ensures |Elements(s)| < |s|
  {
    assert Elements(s) == {s[0]} + Elements(s[1..]);
    if i == 0 {
      assert s[0] == s[1..][j - 1];
      assert Elements(s) == Elements(s[1..]);
      CardAtMost(s[1..]);
    } else {
      assert s[1..][i - 1] == s[1..][j - 1];
      RepeatedCard(s[1..], i - 1, j - 1);
    }
  }

  /** In a sequence without repetitions every value occurs once or not at all. */
  lemma {:induction false} DistinctMultiplicity<T>(s: seq<T>, x: T)
    requires AllDistinct(s)
    ensures multiset(s)[x] == if x in s then 1 else 0
  {
    if s != [] {
      assert s == [s[0]] + s[1..];
      assert AllDistinct(s[1..]) by {
        forall i, j | 0 <= i < j < |s[1..]| ensures s[1..][i] != s[1..][j] {
          assert s[1..][i] == s[i + 1] && s[1..][j] == s[j + 1];
        }
      }
      DistinctMultiplicity(s[1..], x);
      assert multiset(s) == multiset{s[0]} + multiset(s[1..]);
    }
  }

  /** A reordering of a sequence without repetitions has none either. */
  lemma PermutationKeepsDistinct<T>(s: seq<T>, t: seq<T>)
    requires IsPermutationOf(s, t) && AllDistinct(t)
    ensures AllDistinct(s)
  {
    forall i, j | 0 <= i < j < |s| ensures s[i] != s[j] {
      if s[i] == s[j] {
        var x := s[i];
        assert s == s[..j] + s[j..];
        assert x in s[..j];
        assert s[j..][0] == x;
        assert multiset(s) == multiset(s[..j]) + multiset(s[j..]);
        assert multiset(s)[x] >= 2;
        DistinctMultiplicity(t, x);
        assert false;
      }
    }
  }
}
