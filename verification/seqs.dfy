/** Sequence facts the validators rely on: distinctness, JavaScript's
    `[...new Set(xs)]` (first occurrences in order), `indexOf`, and the
    `xs.filter((x, i) => xs.indexOf(x) !== i)` idiom that collects repeats. */
module Seqs {

  /** No element occurs twice. */
  predicate Distinct<T(==)>(xs: seq<T>) {
    forall i, j :: 0 <= i < j < |xs| ==> xs[i] != xs[j]
  }

  /** A sequence whose images under `f` are distinct is itself distinct. */
  lemma DistinctByImage<T, U>(xs: seq<T>, f: T -> U, images: seq<U>)
    requires |images| == |xs| && forall i :: 0 <= i < |xs| ==> images[i] == f(xs[i])
    requires Distinct(images)
    ensures Distinct(xs)
  {
    forall i, j | 0 <= i < j < |xs|
      ensures xs[i] != xs[j]
    {
      assert images[i] != images[j];
    }
  }

  /** `x` occurs at two different positions of `xs`. */
  predicate OccursTwice<T(==)>(xs: seq<T>, x: T) {
    exists i, j :: 0 <= i < j < |xs| && xs[i] == x && xs[j] == x
  }

  /** `[...new Set(xs)]`: the first occurrence of every element, in order.
      Its length is `new Set(xs).size`. */
  function Dedup<T(==)>(xs: seq<T>): seq<T> {
    if |xs| == 0 then []
    else
      var init := Dedup(xs[..|xs| - 1]);
      if xs[|xs| - 1] in init then init else init + [xs[|xs| - 1]]
  }

  /** The first-occurrence list holds every element once and nothing else. */
  lemma {:induction false} DedupMembers<T>(xs: seq<T>)
    ensures Distinct(Dedup(xs))
    ensures forall x :: x in Dedup(xs) <==> x in xs
    ensures |Dedup(xs)| <= |xs|
  {
    if |xs| > 0 {
      DedupMembers(xs[..|xs| - 1]);
      assert xs == xs[..|xs| - 1] + [xs[|xs| - 1]];
    }
  }

  /** The set built from `xs` is smaller than `xs` exactly when some element repeats. */
  lemma {:induction false} DedupShorterIffRepeat<T(!new)>(xs: seq<T>)
    ensures |Dedup(xs)| < |xs| <==> !Distinct(xs)
  {
    if |xs| > 0 {
      var init := xs[..|xs| - 1];
      var last := xs[|xs| - 1];
      DedupShorterIffRepeat(init);
      DedupMembers(init);
      if Distinct(xs) {
        assert Distinct(init);
        forall i | 0 <= i < |init|
          ensures init[i] != last
        {
          assert init[i] == xs[i];
        }
      } else if Distinct(init) {
        var i, j :| 0 <= i < j < |xs| && xs[i] == xs[j];
        assert j == |xs| - 1;
        assert init[i] == last;
      } else {
        assert |Dedup(init)| < |init|;
      }
    }
  }

  /** `xs.indexOf(x)`: the first position of `x`, or -1. */
  function IndexOf<T(==)>(xs: seq<T>, x: T): (r: int)
    ensures -1 <= r < |xs|
    ensures r == -1 <==> x !in xs
    ensures 0 <= r ==> xs[r] == x
    ensures forall j :: 0 <= j < |xs| && xs[j] == x ==> r <= j
  {
    if |xs| == 0 then -1
    else if xs[0] == x then 0
    else
      var k := IndexOf(xs[1..], x);
      assert forall j :: 1 <= j < |xs| ==> xs[j] == xs[1..][j - 1];
      if k == -1 then -1 else k + 1
  }

  /** The elements `xs[i]`, `i < n`, whose first occurrence is before `i`,
      i.e. `xs.slice(0, n).filter((x, i) => xs.indexOf(x) !== i)`. */
  function RepeatsUpTo<T(==)>(xs: seq<T>, n: nat): seq<T>
    requires n <= |xs|
  {
    if n == 0 then []
    else RepeatsUpTo(xs, n - 1) + (if IndexOf(xs, xs[n - 1]) != n - 1 then [xs[n - 1]] else [])
  }

  lemma {:induction false} RepeatsUpToMembers<T>(xs: seq<T>, n: nat, x: T)
    requires n <= |xs|
    ensures x in RepeatsUpTo(xs, n) <==> exists i, j :: 0 <= i < j < n && xs[i] == x && xs[j] == x
  {
    if n > 0 {
      RepeatsUpToMembers(xs, n - 1, x);
      var k := IndexOf(xs, xs[n - 1]);
      assert 0 <= k <= n - 1;
      if x == xs[n - 1] && k != n - 1 {
        assert xs[k] == x && xs[n - 1] == x;
      }
      if exists i, j :: 0 <= i < j < n && xs[i] == x && xs[j] == x {
        var i, j :| 0 <= i < j < n && xs[i] == x && xs[j] == x;
        if j == n - 1 {
          assert k <= i;
        }
      }
    }
  }

  /** The repeated elements of `xs`, each listed once, in order of first repeat:
      `[...new Set(xs.filter((x, i) => xs.indexOf(x) !== i))]`. Its properties
      are stated by `DuplicateListMembers`, so that message texts built from it
      stay cheap to reason about. */
  function DuplicateList<T(==,!new)>(xs: seq<T>): seq<T> {
    Dedup(RepeatsUpTo(xs, |xs|))
  }

  /** The duplicate list names every repeated element exactly once. */
  lemma DuplicateListMembers<T(!new)>(xs: seq<T>)
    ensures Distinct(DuplicateList(xs))
    ensures forall x :: x in DuplicateList(xs) <==> OccursTwice(xs, x)
  {
    DedupMembers(RepeatsUpTo(xs, |xs|));
    forall x {
      RepeatsUpToMembers(xs, |xs|, x);
    }
  }

  /** `new Set(xs).size < xs.length` holds exactly when the duplicate list is non-empty. */
  lemma HasDuplicatesIffListed<T(!new)>(xs: seq<T>)
    ensures |Dedup(xs)| < |xs| <==> |DuplicateList(xs)| > 0
  {
    DedupShorterIffRepeat(xs);
    DuplicateListMembers(xs);
    if !Distinct(xs) {
      var i, j :| 0 <= i < j < |xs| && xs[i] == xs[j];
      assert OccursTwice(xs, xs[i]);
      assert xs[i] in DuplicateList(xs);
    }
    if |DuplicateList(xs)| > 0 {
      assert OccursTwice(xs, DuplicateList(xs)[0]);
    }
  }

  /** `xs.filter(x => !known.has(x))`. */
  function Outside<T(==,!new)>(xs: seq<T>, known: seq<T>): (r: seq<T>)
    ensures forall x :: x in r <==> x in xs && x !in known
    ensures |r| <= |xs|
  {
    if |xs| == 0 then []
    else (if xs[0] in known then [] else [xs[0]]) + Outside(xs[1..], known)
  }

  /** Nothing is left outside `known` exactly when every element is in it. */
  lemma {:induction false} OutsideEmptyIff<T(!new)>(xs: seq<T>, known: seq<T>)
    ensures Outside(xs, known) == [] <==> forall i :: 0 <= i < |xs| ==> xs[i] in known
  {
    if |xs| > 0 {
      OutsideEmptyIff(xs[1..], known);
      assert forall i :: 1 <= i < |xs| ==> xs[i] == xs[1..][i - 1];
    }
  }

  /** A distinct sequence has as many elements as the set of its elements. */
  lemma {:induction false} DistinctCardinality<T>(xs: seq<T>)
    requires Distinct(xs)
    ensures |set x | x in xs| == |xs|
  {
    if |xs| > 0 {
      var rest := xs[1..];
      assert Distinct(rest);
      DistinctCardinality(rest);
      assert (set x | x in xs) == {xs[0]} + (set x | x in rest);
      forall k | 0 <= k < |rest|
        ensures rest[k] != xs[0]
      {
        assert rest[k] == xs[k + 1];
      }
    }
  }

  /** `new Set(xs).size` equals the length of the first-occurrence list. */
  lemma SetSizeIsDedupLength<T(!new)>(xs: seq<T>)
    ensures |set x | x in xs| == |Dedup(xs)|
  {
    DedupMembers(xs);
    DistinctCardinality(Dedup(xs));
    assert (set x | x in xs) == (set x | x in Dedup(xs));
  }
}
