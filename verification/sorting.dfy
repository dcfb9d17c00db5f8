/** A stable insertion sort: the order `Array.prototype.sort` produces
    for a consistent comparator, where `leq(a, b)` means the comparator
    returns a value <= 0 for `(a, b)`. Equal elements keep their input order. */
module Sorting {

  ghost predicate Total<T(!new)>(leq: (T, T) -> bool) {
    forall a, b :: leq(a, b) || leq(b, a)
  }

  ghost predicate Transitive<T(!new)>(leq: (T, T) -> bool) {
    forall a, b, c :: leq(a, b) && leq(b, c) ==> leq(a, c)
  }

  /** Every earlier element is `leq` every later one. */
  predicate SortedBy<T>(xs: seq<T>, leq: (T, T) -> bool) {
    forall i, j :: 0 <= i < j < |xs| ==> leq(xs[i], xs[j])
  }

  /** Places `x` before the first element it is `leq`. */
  function Insert<T>(x: T, t: seq<T>, leq: (T, T) -> bool): (r: seq<T>)
    ensures multiset(r) == multiset{x} + multiset(t)
    ensures |r| == |t| + 1
  {
    if |t| == 0 then [x]
    else if leq(x, t[0]) then [x] + t
    else
      assert t == [t[0]] + t[1..];
      [t[0]] + Insert(x, t[1..], leq)
  }

  lemma {:induction false} InsertSorted<T(!new)>(x: T, t: seq<T>, leq: (T, T) -> bool)
    requires Total(leq) && Transitive(leq)
    requires SortedBy(t, leq)
    ensures SortedBy(Insert(x, t, leq), leq)
  {
    if |t| > 0 && !leq(x, t[0]) {
      var rest := Insert(x, t[1..], leq);
      InsertSorted(x, t[1..], leq);
      forall y | y in rest
        ensures leq(t[0], y)
      {
        assert y in multiset(rest);
        if y != x {
          assert y in t[1..];
        }
      }
    }
  }

  /** Sorts `xs` by `leq`, stably: each element in turn is inserted into the
      sorted rest. Defined for every `leq`; `SortPermutes` and `SortSorted` state
      what it computes. */
  function Sort<T>(xs: seq<T>, leq: (T, T) -> bool): seq<T> {
    if |xs| == 0 then []
    else Insert(xs[0], Sort(xs[1..], leq), leq)
  }

  /** Sorting loses and invents nothing. */
  lemma {:induction false} SortPermutes<T>(xs: seq<T>, leq: (T, T) -> bool)
    ensures multiset(Sort(xs, leq)) == multiset(xs)
    ensures |Sort(xs, leq)| == |xs|
  {
    if |xs| > 0 {
      SortPermutes(xs[1..], leq);
      assert xs == [xs[0]] + xs[1..];
    }
  }

  /** For a total, transitive `leq` the result is ordered. */
  lemma {:induction false} SortSorted<T(!new)>(xs: seq<T>, leq: (T, T) -> bool)
    requires Total(leq) && Transitive(leq)
    ensures SortedBy(Sort(xs, leq), leq)
  {
    if |xs| > 0 {
      SortSorted(xs[1..], leq);
      InsertSorted(xs[0], Sort(xs[1..], leq), leq);
    }
  }

  /** The elements of `xs` that `leq` ranks equal to `e`, in input order. */
  function EquivalentTo<T>(xs: seq<T>, leq: (T, T) -> bool, e: T): seq<T> {
    if |xs| == 0 then []
    else (if Ties(leq, xs[0], e) then [xs[0]] else []) + EquivalentTo(xs[1..], leq, e)
  }

  lemma EquivalentToCons<T>(a: T, s: seq<T>, leq: (T, T) -> bool, e: T)
    ensures EquivalentTo([a] + s, leq, e) == (if Ties(leq, a, e) then [a] else []) + EquivalentTo(s, leq, e)
  {
    assert ([a] + s)[1..] == s;
  }

  /** `a` and `e` are each `leq` the other. */
  predicate Ties<T>(leq: (T, T) -> bool, a: T, e: T) {
    leq(a, e) && leq(e, a)
  }

  /** Inserting `x` puts it ahead of every element ranked equal to `e`, when
      `x` is too and is `leq` each of them. */
  lemma {:induction false} InsertStable<T>(x: T, t: seq<T>, leq: (T, T) -> bool, e: T)
    requires forall y :: y in t && Ties(leq, x, e) && Ties(leq, y, e) ==> leq(x, y)
    ensures EquivalentTo(Insert(x, t, leq), leq, e)
      == (if Ties(leq, x, e) then [x] else []) + EquivalentTo(t, leq, e)
  {
    if |t| == 0 {
      EquivalentToCons(x, [], leq, e);
    } else if leq(x, t[0]) {
      EquivalentToCons(x, t, leq, e);
    } else {
      var rest := Insert(x, t[1..], leq);
      var qx := if Ties(leq, x, e) then [x] else [];
      var q0 := if Ties(leq, t[0], e) then [t[0]] else [];
      var tail := EquivalentTo(t[1..], leq, e);
      InsertStable(x, t[1..], leq, e);
      EquivalentToCons(t[0], rest, leq, e);
      assert EquivalentTo(t, leq, e) == q0 + tail;
      assert qx == [] || q0 == [];
      assert q0 + (qx + tail) == qx + (q0 + tail);
    }
  }

  /** The sort is stable: the elements ranked equal to any `e` leave it in the
      order they came in. */
  lemma {:induction false} SortStable<T(!new)>(xs: seq<T>, leq: (T, T) -> bool, e: T)
    requires Transitive(leq)
    ensures EquivalentTo(Sort(xs, leq), leq, e) == EquivalentTo(xs, leq, e)
  {
    if |xs| > 0 {
      var sorted := Sort(xs[1..], leq);
      SortStable(xs[1..], leq, e);
      forall y | y in sorted && Ties(leq, xs[0], e) && Ties(leq, y, e)
        ensures leq(xs[0], y)
      {
      }
      InsertStable(xs[0], sorted, leq, e);
      EquivalentToCons(xs[0], xs[1..], leq, e);
      assert xs == [xs[0]] + xs[1..];
    }
  }
}
