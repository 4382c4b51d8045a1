/** Day 1: the expense report. The values are kept sorted twice, ascending
    and descending, and the two searches look for two or three entries that
    add up to 2020, stopping each descending scan as soon as its value drops
    below the ascending one. */
module Day01 {
  import opened Wrappers
  import opened Text

  const Target: nat := 2020

  /** One more than the largest `u32`. */
  const U32Limit: nat := 0x1_0000_0000

  const ParseError := "Error parsing number values from input"
  const NoSolution := "No solution found!"

  datatype Day01 = Day01(valuesAsc: seq<nat>, valuesDesc: seq<nat>)

  /** `numbers` holds two values, as Rust's `[u32; 2]`. */
  datatype SilverSolution = SilverSolution(numbers: seq<nat>, result: nat)

  /** `numbers` holds three values, as Rust's `[u32; 3]`. */
  datatype GoldSolution = GoldSolution(numbers: seq<nat>, result: nat)

  // ---------------------------------------------------------------------------
  // Sorting and reversing
  // ---------------------------------------------------------------------------

  predicate Sorted(xs: seq<nat>) {
    forall i, j :: 0 <= i < j < |xs| ==> xs[i] <= xs[j]
  }

  predicate Descending(xs: seq<nat>) {
    forall i, j :: 0 <= i < j < |xs| ==> xs[i] >= xs[j]
  }

  /** Neighbours in order are enough for the whole sequence to be sorted. */
  lemma {:induction false} SortedByNeighbours(xs: seq<nat>)
    requires forall i :: 0 <= i < |xs| - 1 ==> xs[i] <= xs[i + 1]
    ensures Sorted(xs)
    decreases |xs|
  {
    if |xs| > 1 {
      SortedByNeighbours(xs[1..]);
      forall i, j | 0 <= i < j < |xs|
        ensures xs[i] <= xs[j]
      {
        assert xs[j] == xs[1..][j - 1];
        if i > 0 {
          assert xs[i] == xs[1..][i - 1];
        } else if j > 1 {
          assert xs[1] == xs[1..][0];
        }
      }
    }
  }

  /** `x` placed in front of the first element of `xs` that is not smaller. */
  function Insert(x: nat, xs: seq<nat>): (r: seq<nat>)
    requires Sorted(xs)
    ensures Sorted(r)
    ensures multiset(r) == multiset(xs) + multiset{x}
    ensures |r| > 0 && r[0] == (if |xs| == 0 || x <= xs[0] then x else xs[0])
    decreases |xs|
  {
    if |xs| == 0 || x <= xs[0] then [x] + xs
    else
      var rest := Insert(x, xs[1..]);
      assert xs == [xs[0]] + xs[1..];
      assert xs[0] <= rest[0];
      [xs[0]] + rest
  }

  /** `sort_unstable` on values that cannot be told apart once equal, so
      any sorting order gives the same sequence. */
  function Sort(xs: seq<nat>): (r: seq<nat>)
    ensures Sorted(r)
    ensures multiset(r) == multiset(xs)
    decreases |xs|
  {
    if |xs| == 0 then []
    else
      assert xs == [xs[0]] + xs[1..];
      Insert(xs[0], Sort(xs[1..]))
  }

  /** Two sorted sequences holding the same values are the same sequence. */
  lemma {:induction false} SortedUnique(a: seq<nat>, b: seq<nat>)
    requires Sorted(a) && Sorted(b)
    requires multiset(a) == multiset(b)
    ensures a == b
    decreases |a|
  {
    assert |a| == |multiset(a)| && |b| == |multiset(b)|;
    if |a| > 0 {
      assert a[0] in multiset(b) && b[0] in multiset(a);
      assert a[0] in b && b[0] in a;
      assert a[0] == b[0];
      assert a == [a[0]] + a[1..];
      assert b == [b[0]] + b[1..];
      assert multiset(a) == multiset{a[0]} + multiset(a[1..]);
      assert multiset(b) == multiset{b[0]} + multiset(b[1..]);
      assert multiset(a[1..]) == multiset(a) - multiset{a[0]};
      assert multiset(b[1..]) == multiset(b) - multiset{b[0]};
      SortedUnique(a[1..], b[1..]);
    }
  }

  /** `Sort` gives the one sorted rearrangement of its input. */
  lemma SortIsSortedPermutation(xs: seq<nat>, ys: seq<nat>)
    ensures ys == Sort(xs) <==> (Sorted(ys) && multiset(ys) == multiset(xs))
  {
    if Sorted(ys) && multiset(ys) == multiset(xs) {
      SortedUnique(ys, Sort(xs));
    }
  }

  /** `into_iter().rev().collect()`. */
  function Reverse(xs: seq<nat>): (r: seq<nat>)
    ensures |r| == |xs|
    ensures forall i :: 0 <= i < |xs| ==> r[i] == xs[|xs| - 1 - i]
    decreases |xs|
  {
    if |xs| == 0 then [] else [xs[|xs| - 1]] + Reverse(xs[..|xs| - 1])
  }

  lemma ReverseReverse(xs: seq<nat>)
    ensures Reverse(Reverse(xs)) == xs
  {
  }

  /** Reversing keeps the values and turns ascending into descending. */
  lemma ReverseOfSorted(xs: seq<nat>)
    requires Sorted(xs)
    ensures Descending(Reverse(xs))
    ensures multiset(Reverse(xs)) == multiset(xs)
    decreases |xs|
  {
    if |xs| > 0 {
      var init := xs[..|xs| - 1];
      assert xs == init + [xs[|xs| - 1]];
      ReverseOfSorted(init);
    }
  }

  // ---------------------------------------------------------------------------
  // Parsing
  // ---------------------------------------------------------------------------

  /** Every value fits a `u32`; Rust's `u32` parser rejects the others. */
  predicate FitsU32(values: seq<nat>) {
    forall i :: 0 <= i < |values| ==> values[i] < U32Limit
  }

  /** `Day01::new`: whitespace-separated `u32` values, sorted ascending and
      copied in reverse. */
  function New(data: string): (r: Result<Day01>)
    ensures r.Ok? <==> (ParseNumbers(data).Some? && FitsU32(ParseNumbers(data).value))
    ensures r.Ok? ==> r.value.valuesAsc == Sort(ParseNumbers(data).value)
    ensures r.Ok? ==> multiset(r.value.valuesAsc) == multiset(ParseNumbers(data).value)
    ensures r.Ok? ==> Valid(r.value)
    ensures r.Err? ==> r.error == ParseError
  {
    match ParseNumbers(data)
    case None => Err(ParseError)
    case Some(values) =>
      if !FitsU32(values) then Err(ParseError)
      else
        var asc := Sort(values);
        Ok(Day01(asc, Reverse(asc)))
  }

  /** What `new` establishes and the searches rely on. */
  predicate Valid(day: Day01) {
    Sorted(day.valuesAsc) && day.valuesDesc == Reverse(day.valuesAsc)
  }

  lemma ValidDescending(day: Day01)
    requires Valid(day)
    ensures Descending(day.valuesDesc)
    ensures multiset(day.valuesDesc) == multiset(day.valuesAsc)
  {
    ReverseOfSorted(day.valuesAsc);
  }

  // ---------------------------------------------------------------------------
  // Silver: two entries
  // ---------------------------------------------------------------------------

  /** Ascending position `i` and descending position `j` hold an answer: the
      first value is not the larger, and the two add up to 2020. */
  predicate PairAt(day: Day01, i: nat, j: nat) {
    && i < |day.valuesAsc| && j < |day.valuesDesc|
    && day.valuesAsc[i] <= day.valuesDesc[j]
    && day.valuesAsc[i] + day.valuesDesc[j] == Target
  }

  /** `(i, j)` is the first answer in the order the loops visit pairs. */
  ghost predicate FirstPair(day: Day01, i: nat, j: nat) {
    && PairAt(day, i, j)
    && forall i': nat, j': nat :: i' < i || (i' == i && j' < j) ==> !PairAt(day, i', j')
  }

  /** The answer reported for a pair: its two values and their product. */
  function SilverAnswer(day: Day01, i: nat, j: nat): (s: SilverSolution)
    requires i < |day.valuesAsc| && j < |day.valuesDesc|
    ensures |s.numbers| == 2 && s.result == s.numbers[0] * s.numbers[1]
    ensures s.numbers[0] == day.valuesAsc[i] && s.numbers[1] == day.valuesDesc[j]
  {
    SilverSolution([day.valuesAsc[i], day.valuesDesc[j]], day.valuesAsc[i] * day.valuesDesc[j])
  }

  /** `attempt_silver`: for each ascending value, scan the descending values
      until one is smaller, and stop at the first pair summing to 2020. */
  method Silver(day: Day01) returns (r: Result<SilverSolution>)
    requires Valid(day)
    ensures r.Ok? <==> exists i: nat, j: nat :: PairAt(day, i, j)
    ensures r.Ok? ==> exists i: nat, j: nat :: FirstPair(day, i, j) && r.value == SilverAnswer(day, i, j)
    ensures r.Err? ==> r.error == NoSolution
  {
    ValidDescending(day);
    var asc, desc := day.valuesAsc, day.valuesDesc;
    var i := 0;
    while i < |asc|
      invariant 0 <= i <= |asc|
      invariant forall i': nat, j': nat :: i' < i ==> !PairAt(day, i', j')
    {
      var j := 0;
      while j < |desc|
        invariant 0 <= j <= |desc|
        invariant forall j': nat :: j' < j ==> !PairAt(day, i, j')
      {
        if asc[i] > desc[j] {
          forall j': nat | j <= j'
            ensures !PairAt(day, i, j')
          {
          }
          break;
        }
        if Target == asc[i] + desc[j] {
          assert FirstPair(day, i, j);
          return Ok(SilverAnswer(day, i, j));
        }
        j := j + 1;
      }
      i := i + 1;
    }
    return Err(NoSolution);
  }

  /** Every silver answer comes from the input: its two values are in
      the report, the first is not the larger, and they add up to 2020. */
  lemma PairFromInput(day: Day01, i: nat, j: nat)
    requires Valid(day)
    requires PairAt(day, i, j)
    ensures day.valuesAsc[i] in multiset(day.valuesAsc)
    ensures day.valuesDesc[j] in multiset(day.valuesAsc)
    ensures day.valuesAsc[i] <= day.valuesDesc[j]
  {
    ValidDescending(day);
    assert day.valuesDesc[j] in multiset(day.valuesDesc);
  }

  /** The two ends of a silver answer may be the same entry: a report
      holding 1010 once pairs it with itself. */
  lemma SelfPairing()
    ensures Valid(Day01([1010], [1010]))
    ensures FirstPair(Day01([1010], [1010]), 0, 0)
  {
  }

  // ---------------------------------------------------------------------------
  // Gold: three entries
  // ---------------------------------------------------------------------------

  /** Ascending positions `i` and `j` and descending position `k` hold an
      answer: the first value is the smallest, and the three add up to 2020. */
  predicate TripleAt(day: Day01, i: nat, j: nat, k: nat) {
    && i < |day.valuesAsc| && j < |day.valuesAsc| && k < |day.valuesDesc|
    && day.valuesAsc[i] <= day.valuesAsc[j]
    && day.valuesAsc[i] <= day.valuesDesc[k]
    && day.valuesAsc[i] + day.valuesAsc[j] + day.valuesDesc[k] == Target
  }

  /** `(i, j, k)` is the first answer in the order the loops visit triples. */
  ghost predicate FirstTriple(day: Day01, i: nat, j: nat, k: nat) {
    && TripleAt(day, i, j, k)
    && (forall i': nat, j': nat, k': nat :: i' < i ==> !TripleAt(day, i', j', k'))
    && (forall j': nat, k': nat :: j' < j ==> !TripleAt(day, i, j', k'))
    && forall k': nat :: k' < k ==> !TripleAt(day, i, j, k')
  }

  /** The answer reported for a triple: its three values and their product. */
  function GoldAnswer(day: Day01, i: nat, j: nat, k: nat): (s: GoldSolution)
    requires i < |day.valuesAsc| && j < |day.valuesAsc| && k < |day.valuesDesc|
    ensures |s.numbers| == 3 && s.result == s.numbers[0] * s.numbers[1] * s.numbers[2]
    ensures s.numbers[0] == day.valuesAsc[i] && s.numbers[1] == day.valuesAsc[j]
    ensures s.numbers[2] == day.valuesDesc[k]
  {
    GoldSolution([day.valuesAsc[i], day.valuesAsc[j], day.valuesDesc[k]],
                 day.valuesAsc[i] * day.valuesAsc[j] * day.valuesDesc[k])
  }

  /** The innermost loop of `attempt_gold`: the first descending position
      completing the ascending positions `i` and `j`, if any. */
  method CompleteTriple(day: Day01, i: nat, j: nat) returns (k: Option<nat>)
    requires Valid(day)
    requires i < |day.valuesAsc| && j < |day.valuesAsc|
    requires day.valuesAsc[i] <= day.valuesAsc[j]
    ensures k.Some? ==> TripleAt(day, i, j, k.value)
    ensures k.Some? ==> forall k': nat :: k' < k.value ==> !TripleAt(day, i, j, k')
    ensures k.None? ==> forall k': nat :: !TripleAt(day, i, j, k')
  {
    ValidDescending(day);
    var asc, desc := day.valuesAsc, day.valuesDesc;
    var n := 0;
    while n < |desc|
      invariant 0 <= n <= |desc|
      invariant forall k': nat :: k' < n ==> !TripleAt(day, i, j, k')
    {
      if asc[i] > desc[n] {
        forall k': nat | n <= k'
          ensures !TripleAt(day, i, j, k')
        {
        }
        return None;
      }
      if Target == asc[i] + asc[j] + desc[n] {
        return Some(n);
      }
      n := n + 1;
    }
    return None;
  }

  /** `attempt_gold`: pairs of ascending values with the first not the
      larger, each completed by a scan of the descending values that stops
      once they drop below the first. */
  method Gold(day: Day01) returns (r: Result<GoldSolution>)
    requires Valid(day)
    ensures r.Ok? <==> exists i: nat, j: nat, k: nat :: TripleAt(day, i, j, k)
    ensures r.Ok? ==> exists i: nat, j: nat, k: nat :: FirstTriple(day, i, j, k) && r.value == GoldAnswer(day, i, j, k)
    ensures r.Err? ==> r.error == NoSolution
  {
    var asc, desc := day.valuesAsc, day.valuesDesc;
    var i := 0;
    while i < |asc|
      invariant 0 <= i <= |asc|
      invariant forall i': nat, j': nat, k': nat :: i' < i ==> !TripleAt(day, i', j', k')
    {
      var j := 0;
      while j < |asc|
        invariant 0 <= j <= |asc|
        invariant forall j': nat, k': nat :: j' < j ==> !TripleAt(day, i, j', k')
      {
        if asc[i] > asc[j] {
          j := j + 1;
          continue;
        }
        var k := CompleteTriple(day, i, j);
        if k.Some? {
          assert FirstTriple(day, i, j, k.value);
          return Ok(GoldAnswer(day, i, j, k.value));
        }
        j := j + 1;
      }
      i := i + 1;
    }
    return Err(NoSolution);
  }

  // ---------------------------------------------------------------------------
  // The worked example
  // ---------------------------------------------------------------------------

  /** The example report, in input order. */
  const SampleValues: seq<nat> := [1721, 979, 366, 299, 675, 1456]

  const SampleDay := Day01([299, 366, 675, 979, 1456, 1721], [1721, 1456, 979, 675, 366, 299])

  /** The stored values are the example report sorted and reversed, so
      (by `SortIsSortedPermutation`) they are what `new` builds from it. */
  lemma SampleValid()
    ensures Valid(SampleDay)
    ensures multiset(SampleDay.valuesAsc) == multiset(SampleValues)
  {
    SamplePermutation();
    SampleAscending();
    SampleReversed(SampleDay.valuesAsc, SampleDay.valuesDesc);
  }

  /** Element by element, the descending list is the ascending one read
      backwards. */
  lemma SampleReversed(asc: seq<nat>, desc: seq<nat>)
    requires asc == [299, 366, 675, 979, 1456, 1721] && desc == [1721, 1456, 979, 675, 366, 299]
    ensures desc == Reverse(asc)
  {
    assert forall i :: 0 <= i < |asc| ==> desc[i] == asc[|asc| - 1 - i];
    ReverseOf(asc, desc);
  }

  /** A sequence that holds `xs`'s elements back to front is its reverse. */
  lemma ReverseOf(xs: seq<nat>, ys: seq<nat>)
    requires |ys| == |xs| && forall i :: 0 <= i < |xs| ==> ys[i] == xs[|xs| - 1 - i]
    ensures ys == Reverse(xs)
  {
  }

  lemma SampleAscending()
    ensures Sorted(SampleDay.valuesAsc)
  {
    SortedByNeighbours(SampleDay.valuesAsc);
  }

  lemma SamplePermutation()
    ensures multiset(SampleDay.valuesAsc) == multiset(SampleValues)
  {
    SampleSortedIsPermutation();
  }

  lemma SampleSortedIsPermutation()
    ensures multiset([299, 366, 675, 979, 1456, 1721]) == multiset([1721, 979, 366, 299, 675, 1456])
  {
  }

  /** The example's silver answer is 299 and 1721, multiplying to 514579. */
  lemma SampleSilver()
    ensures FirstPair(SampleDay, 0, 0)
    ensures SampleDay.valuesAsc[0] * SampleDay.valuesDesc[0] == 514579
  {
  }

  /** The example's gold answer is 366, 675 and 979, multiplying to
      241861950. */
  lemma SampleGold()
    ensures FirstTriple(SampleDay, 1, 2, 2)
    ensures SampleDay.valuesAsc[1] * SampleDay.valuesAsc[2] * SampleDay.valuesDesc[2] == 241861950
  {
    var asc, desc := SampleDay.valuesAsc, SampleDay.valuesDesc;
    forall i': nat, j': nat, k': nat | i' < 1
      ensures !TripleAt(SampleDay, i', j', k')
    {
      if j' < 6 && k' < 6 {
        assert asc[j'] + desc[k'] != 1721;
      }
    }
    assert !TripleAt(SampleDay, 1, 1, 2);
  }
}
