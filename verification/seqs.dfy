/** Counting and summing over sequences: the iterator adaptors
    (`filter(..).count()`, `sum()`) that the puzzle answers are built from. */
module Seqs {

  /** `xs.iter().filter(f).count()`. */
  function Count<T>(xs: seq<T>, f: T -> bool): (n: nat)
    ensures n <= |xs|
    ensures n == |xs| <==> forall i :: 0 <= i < |xs| ==> f(xs[i])
    ensures n == 0 <==> forall i :: 0 <= i < |xs| ==> !f(xs[i])
    decreases |xs|
  {
    if |xs| == 0 then 0
    else
      var rest := Count(xs[1..], f);
      assert forall i :: 1 <= i < |xs| ==> xs[i] == xs[1..][i - 1];
      (if f(xs[0]) then 1 else 0) + rest
  }

  /** Counting distributes over concatenation. */
  lemma {:induction false} CountAppend<T>(a: seq<T>, b: seq<T>, f: T -> bool)
    ensures Count(a + b, f) == Count(a, f) + Count(b, f)
    decreases |a|
  {
    if |a| > 0 {
      CountAppend(a[1..], b, f);
      assert (a + b)[1..] == a[1..] + b;
      assert (a + b)[0] == a[0];
    } else {
      assert a + b == b;
    }
  }

  /** The positions among the first `n` whose element satisfies `f`. */
  function Where<T>(xs: seq<T>, f: T -> bool, n: nat): set<nat>
    requires n <= |xs|
  {
    set i: nat | i < n && f(xs[i])
  }

  /** Counting the first `n` elements gives the number of positions among
      them whose element satisfies `f`. */
  lemma {:induction false} CountIsSize<T>(xs: seq<T>, f: T -> bool, n: nat)
    requires n <= |xs|
    ensures Count(xs[..n], f) == |Where(xs, f, n)|
    decreases n
  {
    if n == 0 {
      assert Where(xs, f, n) == {};
    } else {
      CountIsSize(xs, f, n - 1);
      CountStep(xs, f, n);
      WhereStep(xs, f, n);
    }
  }

  /** Counting the first `n` elements adds the last one to the first `n - 1`. */
  lemma CountStep<T>(xs: seq<T>, f: T -> bool, n: nat)
    requires 0 < n <= |xs|
    ensures Count(xs[..n], f) == Count(xs[..n - 1], f) + (if f(xs[n - 1]) then 1 else 0)
  {
    assert xs[..n] == xs[..n - 1] + [xs[n - 1]];
    CountAppend(xs[..n - 1], [xs[n - 1]], f);
  }

  /** The satisfying positions among the first `n` add `n - 1` when its
      element satisfies `f`. */
  lemma WhereStep<T>(xs: seq<T>, f: T -> bool, n: nat)
    requires 0 < n <= |xs|
    ensures |Where(xs, f, n)| == |Where(xs, f, n - 1)| + (if f(xs[n - 1]) then 1 else 0)
  {
    if f(xs[n - 1]) {
      assert Where(xs, f, n) == Where(xs, f, n - 1) + {n - 1};
    } else {
      assert Where(xs, f, n) == Where(xs, f, n - 1);
    }
  }

  /** The count of a whole sequence is its number of satisfying positions. */
  lemma CountIsWhere<T>(xs: seq<T>, f: T -> bool)
    ensures Count(xs, f) == |Where(xs, f, |xs|)|
  {
    CountIsSize(xs, f, |xs|);
    assert xs[..|xs|] == xs;
  }

  /** Counting the three elements of a three-element sequence. */
  lemma CountThree<T>(xs: seq<T>, f: T -> bool)
    requires |xs| == 3
    ensures Count(xs, f) == (if f(xs[0]) then 1 else 0) + (if f(xs[1]) then 1 else 0) + (if f(xs[2]) then 1 else 0)
  {
    assert xs[1..][1..] == [xs[2]];
  }

  /** `xs.iter().sum()` over naturals. */
  function Sum(xs: seq<nat>): nat
    decreases |xs|
  {
    if |xs| == 0 then 0 else xs[0] + Sum(xs[1..])
  }

  /** Summing the five elements of a five-element sequence. */
  lemma SumFive(xs: seq<nat>)
    requires |xs| == 5
    ensures Sum(xs) == xs[0] + xs[1] + xs[2] + xs[3] + xs[4]
  {
    assert Sum(xs[4..]) == xs[4] by {
      assert xs[4..][1..] == [];
    }
    assert Sum(xs[3..]) == xs[3] + Sum(xs[4..]) by {
      assert xs[3..][0] == xs[3] && xs[3..][1..] == xs[4..];
    }
    assert Sum(xs[2..]) == xs[2] + Sum(xs[3..]) by {
      assert xs[2..][0] == xs[2] && xs[2..][1..] == xs[3..];
    }
    assert Sum(xs[1..]) == xs[1] + Sum(xs[2..]) by {
      assert xs[1..][0] == xs[1] && xs[1..][1..] == xs[2..];
    }
  }

  /** Summing distributes over concatenation. */
  lemma {:induction false} SumAppend(a: seq<nat>, b: seq<nat>)
    ensures Sum(a + b) == Sum(a) + Sum(b)
    decreases |a|
  {
    if |a| > 0 {
      SumAppend(a[1..], b);
      assert (a + b)[1..] == a[1..] + b;
      assert (a + b)[0] == a[0];
    } else {
      assert a + b == b;
    }
  }

  /** Every term is at most `bound`, so the sum is at most `|xs| * bound`. */
  lemma {:induction false} SumBounded(xs: seq<nat>, bound: nat)
    requires forall i :: 0 <= i < |xs| ==> xs[i] <= bound
    ensures Sum(xs) <= |xs| * bound
    decreases |xs|
  {
    if |xs| > 0 {
      SumBounded(xs[1..], bound);
    }
  }

  /** Term-by-term domination carries over to the sums. */
  lemma {:induction false} SumMonotone(xs: seq<nat>, ys: seq<nat>)
    requires |xs| == |ys|
    requires forall i :: 0 <= i < |xs| ==> xs[i] <= ys[i]
    ensures Sum(xs) <= Sum(ys)
    decreases |xs|
  {
    if |xs| > 0 {
      SumMonotone(xs[1..], ys[1..]);
    }
  }

  /** The least element of a non-empty sequence. */
  function Min(xs: seq<nat>): (m: nat)
    requires |xs| > 0
    ensures m in xs && forall i :: 0 <= i < |xs| ==> m <= xs[i]
    decreases |xs|
  {
    if |xs| == 1 then xs[0]
    else
      var rest := Min(xs[1..]);
      assert forall i :: 1 <= i < |xs| ==> xs[i] == xs[1..][i - 1];
      if xs[0] <= rest then xs[0] else rest
  }

  /** The greatest element of a non-empty sequence. */
  function Max(xs: seq<nat>): (m: nat)
    requires |xs| > 0
    ensures m in xs && forall i :: 0 <= i < |xs| ==> xs[i] <= m
    decreases |xs|
  {
    if |xs| == 1 then xs[0]
    else
      var rest := Max(xs[1..]);
      assert forall i :: 1 <= i < |xs| ==> xs[i] == xs[1..][i - 1];
      if xs[0] >= rest then xs[0] else rest
  }

  /** The position of the last element satisfying `f`, or -1 when none does. */
  function LastWhere<T>(xs: seq<T>, f: T -> bool): (r: int)
    ensures -1 <= r < |xs|
    ensures r >= 0 ==> f(xs[r]) && forall j :: r < j < |xs| ==> !f(xs[j])
    ensures r < 0 ==> forall j :: 0 <= j < |xs| ==> !f(xs[j])
    decreases |xs|
  {
    if |xs| == 0 then -1
    else if f(xs[|xs| - 1]) then |xs| - 1
    else
      var init := xs[..|xs| - 1];
      assert forall j :: 0 <= j < |init| ==> init[j] == xs[j];
      LastWhere(init, f)
  }

  /** The last satisfying position is the only one after which nothing
      satisfies `f`. */
  lemma LastWhereUnique<T>(xs: seq<T>, f: T -> bool, r: int)
    requires -1 <= r < |xs|
    requires r >= 0 ==> f(xs[r])
    requires forall j :: r < j < |xs| ==> !f(xs[j])
    ensures LastWhere(xs, f) == r
  {
  }

  /** `LastWhere` read from the front: a satisfying element in the tail
      wins over the head. */
  lemma LastWhereCons<T>(xs: seq<T>, f: T -> bool)
    requires |xs| > 0
    ensures LastWhere(xs, f) ==
              if LastWhere(xs[1..], f) >= 0 then LastWhere(xs[1..], f) + 1
              else if f(xs[0]) then 0 else -1
  {
    var t := LastWhere(xs[1..], f);
    var r := if t >= 0 then t + 1 else if f(xs[0]) then 0 else -1;
    assert forall j :: 1 <= j < |xs| ==> xs[j] == xs[1..][j - 1];
    LastWhereUnique(xs, f, r);
  }
}
