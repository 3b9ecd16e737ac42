/** `Array.prototype.sort` with a comparator of the form `(a, b) => rank(a) - rank(b)`:
    a stable sort by an integer rank, ascending. Modelled as insertion sort. */
module Sorting {
  import opened Basics

  ghost predicate SortedBy<T>(xs: seq<T>, rank: T -> int)
  {
    forall i, j :: 0 <= i < j < |xs| ==> rank(xs[i]) <= rank(xs[j])
  }

  ghost predicate StrictlySortedBy<T>(xs: seq<T>, rank: T -> int)
  {
    forall i, j :: 0 <= i < j < |xs| ==> rank(xs[i]) < rank(xs[j])
  }

  ghost predicate RanksDistinct<T>(xs: seq<T>, rank: T -> int)
  {
    forall i, j :: 0 <= i < j < |xs| ==> rank(xs[i]) != rank(xs[j])
  }

  /** Put `x` in front of the first element whose rank is not smaller. */
  function Insert<T>(x: T, xs: seq<T>, rank: T -> int): seq<T>
  {
    if |xs| == 0 then [x]
    else if rank(x) <= rank(xs[0]) then [x] + xs
    else [xs[0]] + Insert(x, xs[1..], rank)
  }

  /** Sort the tail, then insert the head in front of its equals: earlier
      elements stay in front of later ones of equal rank. */
  function SortBy<T>(xs: seq<T>, rank: T -> int): seq<T>
  {
    if |xs| == 0 then [] else Insert(xs[0], SortBy(xs[1..], rank), rank)
  }

  lemma {:induction false} InsertPermutes<T>(x: T, xs: seq<T>, rank: T -> int)
    ensures multiset(Insert(x, xs, rank)) == multiset(xs) + multiset{x}
  {
    if |xs| > 0 && rank(x) > rank(xs[0]) {
      InsertPermutes(x, xs[1..], rank);
      assert xs == [xs[0]] + xs[1..];
    }
  }

  /** Every element of the insertion result is `x` or an element of `xs`. */
  lemma {:induction false} InsertMembers<T>(x: T, xs: seq<T>, rank: T -> int)
    ensures forall i :: 0 <= i < |Insert(x, xs, rank)| ==>
      Insert(x, xs, rank)[i] == x || Insert(x, xs, rank)[i] in xs
  {
    InsertPermutes(x, xs, rank);
    var r := Insert(x, xs, rank);
    forall i | 0 <= i < |r| ensures r[i] == x || r[i] in xs {
      assert r[i] in multiset(r);
    }
  }

  lemma {:induction false} InsertSorted<T>(x: T, xs: seq<T>, rank: T -> int)
    requires SortedBy(xs, rank)
    ensures SortedBy(Insert(x, xs, rank), rank)
  {
    if |xs| > 0 && rank(x) > rank(xs[0]) {
      InsertSorted(x, xs[1..], rank);
      InsertMembers(x, xs[1..], rank);
    }
  }

  lemma {:induction false} InsertStrict<T>(x: T, xs: seq<T>, rank: T -> int)
    requires StrictlySortedBy(xs, rank)
    requires forall i :: 0 <= i < |xs| ==> rank(xs[i]) != rank(x)
    ensures StrictlySortedBy(Insert(x, xs, rank), rank)
  {
    if |xs| > 0 && rank(x) > rank(xs[0]) {
      InsertStrict(x, xs[1..], rank);
      InsertMembers(x, xs[1..], rank);
    }
  }

  /** The result is ordered by rank and is a permutation of the input. */
  lemma {:induction false} SortBySpec<T>(xs: seq<T>, rank: T -> int)
    ensures multiset(SortBy(xs, rank)) == multiset(xs)
    ensures SortedBy(SortBy(xs, rank), rank)
  {
    if |xs| > 0 {
      SortBySpec(xs[1..], rank);
      InsertPermutes(xs[0], SortBy(xs[1..], rank), rank);
      InsertSorted(xs[0], SortBy(xs[1..], rank), rank);
      assert xs == [xs[0]] + xs[1..];
    }
  }

  /** With pairwise distinct ranks the order is strict. */
  lemma {:induction false} SortByStrict<T>(xs: seq<T>, rank: T -> int)
    requires RanksDistinct(xs, rank)
    ensures StrictlySortedBy(SortBy(xs, rank), rank)
  {
    if |xs| > 0 {
      var t := SortBy(xs[1..], rank);
      SortByStrict(xs[1..], rank);
      SortBySpec(xs[1..], rank);
      forall i | 0 <= i < |t| ensures rank(t[i]) != rank(xs[0]) {
        assert t[i] in multiset(xs[1..]);
        var j :| 0 <= j < |xs[1..]| && xs[1..][j] == t[i];
        assert xs[j + 1] == t[i];
      }
      InsertStrict(xs[0], t, rank);
    }
  }

  /** The elements of a given rank, in order. */
  function OfRank<T>(xs: seq<T>, rank: T -> int, v: int): seq<T>
  {
    if |xs| == 0 then []
    else (if rank(xs[0]) == v then [xs[0]] else []) + OfRank(xs[1..], rank, v)
  }

  /** `x` lands in front of every element of its own rank. */
  lemma {:induction false} InsertOfRank<T>(x: T, xs: seq<T>, rank: T -> int, v: int)
    ensures OfRank(Insert(x, xs, rank), rank, v)
      == (if rank(x) == v then [x] else []) + OfRank(xs, rank, v)
  {
    if |xs| > 0 {
      var head := if rank(xs[0]) == v then [xs[0]] else [];
      var mine := if rank(x) == v then [x] else [];
      var rest := OfRank(xs[1..], rank, v);
      assert OfRank(xs, rank, v) == head + rest;
      if rank(x) > rank(xs[0]) {
        InsertOfRank(x, xs[1..], rank, v);
        var ins := Insert(x, xs[1..], rank);
        assert ([xs[0]] + ins)[0] == xs[0];
        assert ([xs[0]] + ins)[1..] == ins;
        assert OfRank([xs[0]] + ins, rank, v) == head + (mine + rest);
        assert head == [] || mine == [];
      } else {
        assert ([x] + xs)[0] == x;
        assert ([x] + xs)[1..] == xs;
      }
    }
  }

  /** Stability: among elements of equal rank the input order is kept. */
  lemma {:induction false} SortByStable<T>(xs: seq<T>, rank: T -> int, v: int)
    ensures OfRank(SortBy(xs, rank), rank, v) == OfRank(xs, rank, v)
  {
    if |xs| > 0 {
      SortByStable(xs[1..], rank, v);
      InsertOfRank(xs[0], SortBy(xs[1..], rank), rank, v);
    }
  }

  /** Sorting a sequence that is already ordered changes nothing. */
  lemma {:induction false} SortBySorted<T>(xs: seq<T>, rank: T -> int)
    requires SortedBy(xs, rank)
    ensures SortBy(xs, rank) == xs
  {
    if |xs| > 0 {
      SortBySorted(xs[1..], rank);
      if |xs| > 1 {
        assert rank(xs[0]) <= rank(xs[1..][0]);
      }
      assert [xs[0]] + xs[1..] == xs;
    }
  }

  /** Inserting `x` adds `f(x)` to the sum of `f`. */
  lemma {:induction false} InsertSumOf<T>(x: T, xs: seq<T>, rank: T -> int, f: T -> int)
    ensures SumOf(Insert(x, xs, rank), f) == f(x) + SumOf(xs, f)
  {
    if |xs| > 0 && rank(x) > rank(xs[0]) {
      InsertSumOf(x, xs[1..], rank, f);
      assert ([xs[0]] + Insert(x, xs[1..], rank))[1..] == Insert(x, xs[1..], rank);
    } else if |xs| > 0 {
      assert ([x] + xs)[1..] == xs;
    }
  }

  /** Sorting does not change a sum taken over the elements. */
  lemma {:induction false} SortBySumOf<T>(xs: seq<T>, rank: T -> int, f: T -> int)
    ensures SumOf(SortBy(xs, rank), f) == SumOf(xs, f)
  {
    if |xs| > 0 {
      SortBySumOf(xs[1..], rank, f);
      InsertSumOf(xs[0], SortBy(xs[1..], rank), rank, f);
    }
  }

  /** Every element of the sorted sequence comes from the input, so a
      property of all input elements holds of all output elements. */
  lemma {:induction false} SortByKeeps<T>(xs: seq<T>, rank: T -> int, keep: T -> bool)
    requires forall i :: 0 <= i < |xs| ==> keep(xs[i])
    ensures forall i :: 0 <= i < |SortBy(xs, rank)| ==> keep(SortBy(xs, rank)[i])
  {
    var r := SortBy(xs, rank);
    SortBySpec(xs, rank);
    forall i | 0 <= i < |r| ensures keep(r[i]) {
      assert r[i] in multiset(xs);
    }
  }
}
