/**
 * Sorting by a strict order given as a function value: insertion sort and
 * the fact that a strict order has only one ascending arrangement of a
 * multiset, so any sorting algorithm gives the same sequence.
 */
module Sorting {

  /** Each element is `less` than the next one. */
  ghost predicate Ascending<T>(s: seq<T>, less: (T, T) -> bool) {
    forall i :: 0 < i < |s| ==> less(s[i - 1], s[i])
  }

  /** Any two elements at different positions are ordered one way or the
      other. */
  ghost predicate Connex<T>(s: seq<T>, less: (T, T) -> bool) {
    forall i, j :: 0 <= i < |s| && 0 <= j < |s| && i != j ==> less(s[i], s[j]) || less(s[j], s[i])
  }

  /** `less` is asymmetric and transitive. */
  ghost predicate StrictOrder<T(!new)>(less: (T, T) -> bool) {
    && (forall a, b :: less(a, b) ==> !less(b, a))
    && (forall a, b, c :: less(a, b) && less(b, c) ==> less(a, c))
  }

  function InsertBy<T>(x: T, s: seq<T>, less: (T, T) -> bool): (out: seq<T>)
    requires Ascending(s, less)
    requires forall k :: 0 <= k < |s| ==> less(x, s[k]) || less(s[k], x)
    ensures |out| > 0 && (out[0] == x || (|s| > 0 && out[0] == s[0]))
    ensures Ascending(out, less)
    ensures multiset(out) == multiset(s) + multiset{x}
  {
    if |s| == 0 || less(x, s[0]) then [x] + s
    else
      assert s == [s[0]] + s[1..];
      [s[0]] + InsertBy(x, s[1..], less)
  }

  /** Insertion sort by `less`. */
  function SortBy<T>(s: seq<T>, less: (T, T) -> bool): (out: seq<T>)
    requires Connex(s, less)
    ensures Ascending(out, less)
    ensures multiset(out) == multiset(s)
  {
    if |s| == 0 then []
    else
      assert s == [s[0]] + s[1..];
      var rest := SortBy(s[1..], less);
      forall k | 0 <= k < |rest| ensures less(s[0], rest[k]) || less(rest[k], s[0]) {
        assert rest[k] in multiset(s[1..]);
        var j :| 0 <= j < |s[1..]| && s[1..][j] == rest[k];
        assert s[j + 1] == rest[k];
      }
      InsertBy(s[0], rest, less)
  }

  /** Along an ascending sequence every element is less than every later one. */
  lemma {:induction false} AscendingPairwise<T(!new)>(s: seq<T>, less: (T, T) -> bool, i: nat, j: nat)
    requires StrictOrder(less) && Ascending(s, less) && i < j < |s|
    ensures less(s[i], s[j])
    decreases j - i
  {
    if i + 1 < j {
      AscendingPairwise(s, less, i + 1, j);
    }
  }

  /** A strict order arranges a multiset in only one ascending way, so the
      result of sorting does not depend on the algorithm. */
  lemma {:induction false} AscendingUnique<T(!new)>(s: seq<T>, t: seq<T>, less: (T, T) -> bool)
    requires StrictOrder(less) && Ascending(s, less) && Ascending(t, less)
    requires multiset(s) == multiset(t)
    ensures s == t
  {
    assert |s| == |multiset(s)| == |t|;
    if |s| > 0 {
      HeadsEqual(s, t, less);
      TailMultiset(s);
      TailMultiset(t);
      AscendingTail(s, less);
      AscendingTail(t, less);
      AscendingUnique(s[1..], t[1..], less);
      SameHeadAndTail(s, t);
    }
  }

  /** Both ascending arrangements start with the least element. */
  lemma HeadsEqual<T(!new)>(s: seq<T>, t: seq<T>, less: (T, T) -> bool)
    requires StrictOrder(less) && Ascending(s, less) && Ascending(t, less)
    requires multiset(s) == multiset(t) && |s| > 0 && |t| > 0
    ensures s[0] == t[0]
  {
    if s[0] != t[0] {
      assert s[0] in multiset(t);
      var j :| 0 <= j < |t| && t[j] == s[0];
      assert t[0] in multiset(s);
      var i :| 0 <= i < |s| && s[i] == t[0];
      AscendingPairwise(t, less, 0, j);
      AscendingPairwise(s, less, 0, i);
      assert false;
    }
  }

  lemma TailMultiset<T>(s: seq<T>)
    requires |s| > 0
    ensures multiset(s[1..]) == multiset(s) - multiset{s[0]}
  {
    assert s == [s[0]] + s[1..];
  }

  lemma AscendingTail<T>(s: seq<T>, less: (T, T) -> bool)
    requires Ascending(s, less) && |s| > 0
    ensures Ascending(s[1..], less)
  {
    forall i | 0 < i < |s| - 1 ensures less(s[1..][i - 1], s[1..][i]) {
      assert s[1..][i - 1] == s[i] && s[1..][i] == s[i + 1];
    }
  }

  lemma SameHeadAndTail<T>(s: seq<T>, t: seq<T>)
    requires |s| > 0 && |t| > 0 && s[0] == t[0] && s[1..] == t[1..]
    ensures s == t
  {
    assert s == [s[0]] + s[1..] && t == [t[0]] + t[1..];
  }
}
