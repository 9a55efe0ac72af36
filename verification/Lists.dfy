/** Sequence helpers: stream filtering, first-occurrence de-duplication
    (Python `list(dict.fromkeys(xs))`) and duplicate counting
    (pandas `Series.duplicated().sum()`). */
module Lists {

  /** Java `stream().filter(p).toList()`: keeps the elements satisfying `p`, in order. */
  function Filter<T(!new)>(xs: seq<T>, p: T -> bool): (r: seq<T>)
    ensures |r| <= |xs|
    ensures forall x :: x in r <==> x in xs && p(x)
    ensures forall i :: 0 <= i < |r| ==> p(r[i])
    ensures |r| == 0 <==> forall i :: 0 <= i < |xs| ==> !p(xs[i])
  {
    if |xs| == 0 then []
    else Filter(xs[..|xs| - 1], p) + (if p(xs[|xs| - 1]) then [xs[|xs| - 1]] else [])
  }

  /** The first element kept by `Filter` is the first element satisfying `p`. */
  lemma {:induction false} FilterHead<T(!new)>(xs: seq<T>, p: T -> bool)
    requires |Filter(xs, p)| > 0
    ensures exists k :: 0 <= k < |xs| && xs[k] == Filter(xs, p)[0] && forall j :: 0 <= j < k ==> !p(xs[j])
  {
    var init := xs[..|xs| - 1];
    var last := xs[|xs| - 1];
    var f := Filter(init, p);
    assert Filter(xs, p) == f + (if p(last) then [last] else []);
    if |f| > 0 {
      FilterHead(init, p);
      var k :| 0 <= k < |init| && init[k] == f[0] && forall j :: 0 <= j < k ==> !p(init[j]);
      assert xs[k] == init[k];
      assert forall j :: 0 <= j < k ==> xs[j] == init[j];
    } else {
      assert p(last) && Filter(xs, p)[0] == last;
      forall j | 0 <= j < |xs| - 1 ensures !p(xs[j]) {
        assert xs[j] == init[j];
        assert init[j] in init;
      }
    }
  }

  /** Number of elements satisfying `p`. */
  function CountWhere<T(!new)>(xs: seq<T>, p: T -> bool): (n: nat)
    ensures n <= |xs|
    ensures n == |Filter(xs, p)|
    ensures n == 0 <==> forall i :: 0 <= i < |xs| ==> !p(xs[i])
  {
    if |xs| == 0 then 0
    else CountWhere(xs[..|xs| - 1], p) + (if p(xs[|xs| - 1]) then 1 else 0)
  }

  /** Filtering a prefix of `xs` gives a prefix of the filtered `xs`. */
  lemma {:induction false} FilterPrefix<T(!new)>(xs: seq<T>, p: T -> bool, n: nat)
    requires n <= |xs|
    ensures Filter(xs[..n], p) <= Filter(xs, p)
  {
    if n < |xs| {
      var init := xs[..|xs| - 1];
      assert init[..n] == xs[..n];
      FilterPrefix(init, p, n);
      assert Filter(xs, p) == Filter(init, p) + (if p(xs[|xs| - 1]) then [xs[|xs| - 1]] else []);
    } else {
      assert xs[..n] == xs;
    }
  }

  /** `Filter` keeps the order of `xs`: an element that passes, at position `k`,
      lands right after the elements that passed before it. */
  lemma FilterKeepsOrder<T(!new)>(xs: seq<T>, p: T -> bool, k: nat)
    requires k < |xs| && p(xs[k])
    ensures CountWhere(xs[..k], p) < |Filter(xs, p)| && Filter(xs, p)[CountWhere(xs[..k], p)] == xs[k]
  {
    var upto := xs[..k + 1];
    FilterPrefix(xs, p, k + 1);
    assert upto[..k] == xs[..k] && upto[k] == xs[k];
    assert Filter(upto, p) == Filter(xs[..k], p) + [xs[k]];
  }

  /** On a list without repetitions, the kept elements appear in the order of
      their positions in the list. */
  lemma {:induction false} FilterIndexOrder<T(!new)>(xs: seq<T>, p: T -> bool)
    requires NoDuplicates(xs)
    ensures FollowsOrderOf(Filter(xs, p), xs)
  {
    if |xs| > 0 {
      var init := xs[..|xs| - 1];
      var last := xs[|xs| - 1];
      var f := Filter(init, p);
      FilterIndexOrder(init, p);
      assert Filter(xs, p) == f + (if p(last) then [last] else []);
      forall y | y in f
        ensures IndexOf(xs, y) == IndexOf(init, y) < |xs| - 1
      {
        IndexOfPrefix(xs, |xs| - 1, y);
      }
      assert last !in init;
      assert IndexOf(xs, last) == |xs| - 1;
    }
  }

  /** Every element of `ys` occurs in `xs`, and `ys` lists them in the order of
      their first positions in `xs`. */
  predicate FollowsOrderOf<T(==,!new)>(ys: seq<T>, xs: seq<T>)
  {
    forall i, j {:trigger IndexOf(xs, ys[i]), IndexOf(xs, ys[j])} :: 0 <= i < j < |ys| ==>
      ys[i] in xs && ys[j] in xs && IndexOf(xs, ys[i]) < IndexOf(xs, ys[j])
  }

  predicate NoDuplicates<T(==,!new)>(xs: seq<T>)
  {
    forall i, j :: 0 <= i < j < |xs| ==> xs[i] != xs[j]
  }

  /** Index of the first occurrence of `x` in `xs`. */
  function IndexOf<T(==,!new)>(xs: seq<T>, x: T): (k: nat)
    requires x in xs
    ensures k < |xs| && xs[k] == x
    ensures forall j :: 0 <= j < k ==> xs[j] != x
  {
    if xs[0] == x then 0 else 1 + IndexOf(xs[1..], x)
  }

  lemma IndexOfPrefix<T(!new)>(xs: seq<T>, n: nat, x: T)
    requires n <= |xs| && x in xs[..n]
    ensures IndexOf(xs, x) == IndexOf(xs[..n], x)
  {
    assert forall j :: 0 <= j < n ==> xs[..n][j] == xs[j];
  }

  /** Python `list(dict.fromkeys(xs))`: every element once, at its first position. */
  function Dedup<T(==,!new)>(xs: seq<T>): (r: seq<T>)
    ensures NoDuplicates(r)
    ensures forall x :: x in r <==> x in xs
  {
    if |xs| == 0 then []
    else
      var init := xs[..|xs| - 1];
      var d := Dedup(init);
      var x := xs[|xs| - 1];
      assert forall y :: y in init ==> y in xs;
      if x in d then d else d + [x]
  }

  /** De-duplication keeps the elements in the order of their first occurrences. */
  lemma {:induction false} DedupKeepsFirstOccurrenceOrder<T(!new)>(xs: seq<T>)
    ensures forall i, j :: 0 <= i < j < |Dedup(xs)| ==> IndexOf(xs, Dedup(xs)[i]) < IndexOf(xs, Dedup(xs)[j])
  {
    if |xs| > 0 {
      var init := xs[..|xs| - 1];
      var d := Dedup(init);
      var x := xs[|xs| - 1];
      DedupKeepsFirstOccurrenceOrder(init);
      forall y | y in d
        ensures IndexOf(xs, y) == IndexOf(init, y) < |xs| - 1
      {
        IndexOfPrefix(xs, |xs| - 1, y);
      }
      if x !in d {
        assert x !in init;
        assert IndexOf(xs, x) == |xs| - 1;
      }
    }
  }

  /** On a list without repetitions, de-duplication changes nothing. */
  lemma {:induction false} DedupOfDistinct<T(!new)>(xs: seq<T>)
    requires NoDuplicates(xs)
    ensures Dedup(xs) == xs
  {
    if |xs| > 0 {
      var init := xs[..|xs| - 1];
      DedupOfDistinct(init);
      assert xs[|xs| - 1] !in init;
      assert init + [xs[|xs| - 1]] == xs;
    }
  }

  /** pandas `duplicated().sum()`: positions whose value already occurred earlier. */
  function DuplicateCount<T(==,!new)>(xs: seq<T>): (n: nat)
    ensures n <= |xs|
  {
    if |xs| == 0 then 0
    else DuplicateCount(xs[..|xs| - 1]) + (if xs[|xs| - 1] in xs[..|xs| - 1] then 1 else 0)
  }

  /** The duplicate count is the number of occurrences beyond the first of each value. */
  lemma {:induction false} DuplicateCountIsExcess<T(!new)>(xs: seq<T>)
    ensures DuplicateCount(xs) == |xs| - |Dedup(xs)|
  {
    if |xs| > 0 {
      var init := xs[..|xs| - 1];
      DuplicateCountIsExcess(init);
    }
  }

  /** A list has no duplicates exactly when its duplicate count is zero. */
  lemma DuplicateCountZeroIff<T(!new)>(xs: seq<T>)
    ensures DuplicateCount(xs) == 0 <==> NoDuplicates(xs)
  {
    DuplicateCountIsExcess(xs);
    if NoDuplicates(xs) {
      DedupOfDistinct(xs);
    } else {
      var i, j :| 0 <= i < j < |xs| && xs[i] == xs[j];
      DedupShorter(xs, i, j);
    }
  }

  /** A repeated value makes the de-duplicated list strictly shorter. */
  lemma {:induction false} DedupShorter<T(!new)>(xs: seq<T>, i: nat, j: nat)
    requires i < j < |xs| && xs[i] == xs[j]
    ensures |Dedup(xs)| < |xs|
  {
    var init := xs[..|xs| - 1];
    if j == |xs| - 1 {
      assert xs[i] == init[i];
      DedupNoLonger(init);
    } else {
      assert init[i] == init[j];
      DedupShorter(init, i, j);
    }
  }

  lemma {:induction false} DedupNoLonger<T(!new)>(xs: seq<T>)
    ensures |Dedup(xs)| <= |xs|
  {
    if |xs| > 0 {
      DedupNoLonger(xs[..|xs| - 1]);
    }
  }

  /** Joining two lists without repetitions and without common elements gives a list without repetitions. */
  lemma AppendDistinct<T(!new)>(xs: seq<T>, ys: seq<T>)
    requires NoDuplicates(xs) && NoDuplicates(ys)
    requires forall y :: y in ys ==> y !in xs
    ensures NoDuplicates(xs + ys)
  {
    var zs := xs + ys;
    forall i, j | 0 <= i < j < |zs| ensures zs[i] != zs[j] {
      if i < |xs| && j >= |xs| {
        assert zs[j] == ys[j - |xs|];
        assert zs[j] in ys;
      }
    }
  }

  /** Filtering a list without repetitions leaves a list without repetitions. */
  lemma {:induction false} FilterDistinct<T(!new)>(xs: seq<T>, p: T -> bool)
    requires NoDuplicates(xs)
    ensures NoDuplicates(Filter(xs, p))
  {
    if |xs| > 0 {
      var init := xs[..|xs| - 1];
      var last := xs[|xs| - 1];
      FilterDistinct(init, p);
      assert last !in init;
      AppendDistinct(Filter(init, p), if p(last) then [last] else []);
    }
  }
}
