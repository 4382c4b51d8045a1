/** Day 9: a stream of numbers in which each value after a preamble should be
    the sum of two of the values just before it; finding the first run of
    values that are not, and a contiguous range summing to such a value. */
module Day09 {
  import opened Wrappers
  import opened Text
  import opened Seqs

  datatype Day09 = Day09(numbers: seq<nat>)

  const ParseError := "Failed to parse input"
  const NoResult := "No result found."
  const NoInvalidCode := "No invalid code found."

  /** `Day09::new`: every whitespace-separated word an unsigned integer. */
  function New(data: string): (r: Result<Day09>)
    ensures r.Ok? <==> AllUnsigned(SplitWhitespace(data))
    ensures r.Ok? ==> ParsedFrom(r.value.numbers, SplitWhitespace(data))
    ensures r.Err? ==> r.error == ParseError
  {
    match ParseNumbers(data)
    case Some(numbers) => Ok(Day09(numbers))
    case None => Err(ParseError)
  }

  // ---------------------------------------------------------------------------
  // Pair sums
  // ---------------------------------------------------------------------------

  /** Two values at different positions of `window` add up to `target`;
      equal values at different positions count. */
  ghost predicate PairSumExists(window: seq<nat>, target: nat) {
    exists i, j :: PairAt(window, target, i, j)
  }

  /** Positions `i` and `j` of `window` are distinct and add up to `target`. */
  predicate PairAt(window: seq<nat>, target: nat, i: int, j: int) {
    0 <= i < |window| && 0 <= j < |window| && i != j && window[i] + window[j] == target
  }

  /** Some position from `b` on pairs with position `a`. */
  predicate PartnerFrom(window: seq<nat>, target: nat, a: nat, b: nat)
    requires a < |window|
    decreases |window| - b
  {
    b < |window| && ((a != b && window[a] + window[b] == target) || PartnerFrom(window, target, a, b + 1))
  }

  /** Some position from `a` on pairs with some position. */
  predicate PairFrom(window: seq<nat>, target: nat, a: nat)
    decreases |window| - a
  {
    a < |window| && (PartnerFrom(window, target, a, 0) || PairFrom(window, target, a + 1))
  }

  /** The pair-sum test, position by position. */
  predicate IsPairSum(window: seq<nat>, target: nat) {
    PairFrom(window, target, 0)
  }

  lemma {:induction false} PartnerFromIff(window: seq<nat>, target: nat, a: nat, b: nat)
    requires a < |window|
    ensures PartnerFrom(window, target, a, b) <==> exists j :: b <= j && PairAt(window, target, a, j)
    decreases |window| - b
  {
    if b < |window| {
      PartnerFromIff(window, target, a, b + 1);
      assert PairAt(window, target, a, b) <==> a != b && window[a] + window[b] == target;
    }
  }

  lemma {:induction false} PairFromIff(window: seq<nat>, target: nat, a: nat)
    ensures PairFrom(window, target, a) <==> exists i, j :: a <= i && PairAt(window, target, i, j)
    decreases |window| - a
  {
    if a < |window| {
      PartnerFromIff(window, target, a, 0);
      PairFromIff(window, target, a + 1);
    }
  }

  /** The position-by-position test finds exactly the pairs of distinct
      positions that add up to the target. */
  lemma IsPairSumIff(window: seq<nat>, target: nat)
    ensures IsPairSum(window, target) <==> PairSumExists(window, target)
  {
    PairFromIff(window, target, 0);
  }

  /** `find_valid_pair`: every ordered pair of distinct positions tried in
      turn. */
  method FindValidPair(window: seq<nat>, target: nat) returns (found: bool)
    ensures found <==> PairSumExists(window, target)
    ensures found <==> IsPairSum(window, target)
  {
    IsPairSumIff(window, target);
    var a := 0;
    while a < |window|
      invariant 0 <= a <= |window|
      invariant forall i, j :: 0 <= i < a && 0 <= j < |window| && i != j ==> window[i] + window[j] != target
    {
      var b := 0;
      while b < |window|
        invariant 0 <= b <= |window|
        invariant forall j :: 0 <= j < b && a != j ==> window[a] + window[j] != target
      {
        if a != b && window[a] + window[b] == target {
          assert PairAt(window, target, a, b);
          return true;
        }
        b := b + 1;
      }
      a := a + 1;
    }
    return false;
  }

  // ---------------------------------------------------------------------------
  // The first run of invalid values
  // ---------------------------------------------------------------------------

  /** The value at `key` is a sum of two of the `preamble` values before it. */
  ghost predicate IsValidAt(numbers: seq<nat>, preamble: nat, key: nat)
    requires preamble <= key < |numbers|
  {
    PairSumExists(numbers[key - preamble..key], numbers[key])
  }

  /** The length of the run of invalid values that ends at `key`, counted
      from the end of the preamble. */
  ghost function RunLength(numbers: seq<nat>, preamble: nat, key: nat): (n: nat)
    requires preamble <= key < |numbers|
    ensures n <= key + 1 - preamble
    ensures n > 0 <==> !IsValidAt(numbers, preamble, key)
    decreases key
  {
    if IsValidAt(numbers, preamble, key) then 0
    else if key == preamble then 1
    else 1 + RunLength(numbers, preamble, key - 1)
  }

  /** Every value of the run ending at `key` is invalid. */
  lemma {:induction false} RunMemberInvalid(numbers: seq<nat>, preamble: nat, key: nat, k: nat)
    requires preamble <= key < |numbers|
    requires key + 1 - RunLength(numbers, preamble, key) <= k <= key
    ensures !IsValidAt(numbers, preamble, k)
    decreases key
  {
    if k < key {
      RunMemberInvalid(numbers, preamble, key - 1, k);
    }
  }

  /** The run ending at `key` is maximal: the value just before it is
      valid, unless the run reaches back to the end of the preamble. */
  lemma {:induction false} RunStartValid(numbers: seq<nat>, preamble: nat, key: nat)
    requires preamble <= key < |numbers|
    ensures var n := RunLength(numbers, preamble, key);
            key + 1 - n > preamble ==> IsValidAt(numbers, preamble, key - n)
    decreases key
  {
    if !IsValidAt(numbers, preamble, key) && key > preamble {
      RunStartValid(numbers, preamble, key - 1);
    }
  }

  /** The values of the run of invalid values ending at `key`: the stretch
      of invalid values that ends there and cannot be extended backwards. */
  ghost function Run(numbers: seq<nat>, preamble: nat, key: nat): (run: seq<nat>)
    requires preamble <= key < |numbers|
    ensures |run| == RunLength(numbers, preamble, key) <= key + 1 - preamble
    ensures run == numbers[key + 1 - |run|..key + 1]
    ensures forall j :: key + 1 - |run| <= j <= key ==> !IsValidAt(numbers, preamble, j)
    ensures key + 1 - |run| > preamble ==> IsValidAt(numbers, preamble, key - |run|)
  {
    var n := RunLength(numbers, preamble, key);
    forall j | key + 1 - n <= j <= key
      ensures !IsValidAt(numbers, preamble, j)
    {
      RunMemberInvalid(numbers, preamble, key, j);
    }
    RunStartValid(numbers, preamble, key);
    RunBefore(numbers, preamble, key + 1)
  }

  /** The run the scan holds on reaching `key`: the one ending just
      before it, or nothing at the end of the preamble. */
  ghost function RunBefore(numbers: seq<nat>, preamble: nat, key: nat): seq<nat>
    requires preamble <= key <= |numbers|
  {
    if key == preamble then [] else numbers[key - RunLength(numbers, preamble, key - 1)..key]
  }

  /** One step of the scan: the run ending at `key` is the run ending just
      before it, extended by the value at `key` or cleared. */
  lemma RunStep(numbers: seq<nat>, preamble: nat, key: nat)
    requires preamble <= key < |numbers|
    ensures RunBefore(numbers, preamble, key + 1) ==
              if IsValidAt(numbers, preamble, key) then [] else RunBefore(numbers, preamble, key) + [numbers[key]]
  {
    var n := RunLength(numbers, preamble, key);
    if !IsValidAt(numbers, preamble, key) {
      var m := if key == preamble then 0 else RunLength(numbers, preamble, key - 1);
      assert n == m + 1;
      assert RunBefore(numbers, preamble, key) == numbers[key - m..key];
      assert numbers[key - m..key + 1] == numbers[key - m..key] + [numbers[key]];
    }
  }

  /** `key` is the first position where the run reaches `length`. */
  ghost predicate FirstRunEnd(numbers: seq<nat>, preamble: nat, length: nat, key: nat) {
    && preamble <= key < |numbers|
    && RunLength(numbers, preamble, key) == length
    && forall k :: preamble <= k < key ==> RunLength(numbers, preamble, k) != length
  }

  /** The loop body of the scan: the run it holds stays in step with
      `RunBefore`, and the scan stops exactly at the first run end. */
  lemma ScanStep(numbers: seq<nat>, preamble: nat, length: nat, key: nat, matches: seq<nat>, valid: bool)
    requires preamble <= key < |numbers|
    requires matches == RunBefore(numbers, preamble, key)
    requires valid == PairSumExists(numbers[key - preamble..key], numbers[key])
    requires forall k :: preamble <= k < key ==> RunLength(numbers, preamble, k) != length
    ensures var next := if valid then [] else matches + [numbers[key]];
            && next == RunBefore(numbers, preamble, key + 1)
            && (|next| == length ==> FirstRunEnd(numbers, preamble, length, key))
            && (|next| == length ==> next == numbers[key + 1 - length..key + 1])
            && (|next| != length ==> forall k :: preamble <= k <= key ==> RunLength(numbers, preamble, k) != length)
  {
    RunStep(numbers, preamble, key);
  }

  /** `find_invalid_code`: scanning from the end of the preamble, extend the
      run at an invalid value, clear it at a valid one, and return the run's
      sum as soon as its length is `length`. */
  method FindInvalidCode(numbers: seq<nat>, preamble: nat, length: nat) returns (r: Option<nat>)
    ensures preamble >= |numbers| ==> r == None
    ensures r.Some? <==> exists key: nat :: FirstRunEnd(numbers, preamble, length, key)
    ensures r.Some? ==> exists key: nat :: FirstRunEnd(numbers, preamble, length, key)
                                     && r.value == Sum(numbers[key + 1 - length..key + 1])
  {
    if preamble >= |numbers| {
      NoRunEnd(numbers, preamble, length);
      return None;
    }
    var matches: seq<nat> := [];
    var key := preamble;
    while key < |numbers|
      invariant preamble <= key <= |numbers|
      invariant matches == RunBefore(numbers, preamble, key)
      invariant forall k :: preamble <= k < key ==> RunLength(numbers, preamble, k) != length
    {
      var valid := FindValidPair(numbers[key - preamble..key], numbers[key]);
      ScanStep(numbers, preamble, length, key, matches, valid);
      matches := if valid then [] else matches + [numbers[key]];
      if |matches| == length {
        return Some(Sum(matches));
      }
      key := key + 1;
    }
    NoRunEnd(numbers, preamble, length);
    return None;
  }

  /** A run that never reaches `length` has no first end. */
  lemma NoRunEnd(numbers: seq<nat>, preamble: nat, length: nat)
    requires forall k :: preamble <= k < |numbers| ==> RunLength(numbers, preamble, k) != length
    ensures forall key: nat :: !FirstRunEnd(numbers, preamble, length, key)
  {
  }

  // ---------------------------------------------------------------------------
  // The contiguous range
  // ---------------------------------------------------------------------------

  /** The values from `a` to `b`, both included. */
  function Span(numbers: seq<nat>, a: nat, b: nat): seq<nat>
    requires a <= b < |numbers|
  {
    numbers[a..b + 1]
  }

  /** At least two values, from `a` to `b`, add up to `target`. */
  predicate SumsTo(numbers: seq<nat>, target: nat, a: nat, b: nat) {
    a < b < |numbers| && Sum(Span(numbers, a, b)) == target
  }

  /** `(a, b)` is the first range summing to `target`, ranges ordered by
      start and then by end. */
  ghost predicate FirstRange(numbers: seq<nat>, target: nat, a: nat, b: nat) {
    && SumsTo(numbers, target, a, b)
    && (forall a': nat, b': nat :: a' < a ==> !SumsTo(numbers, target, a', b'))
    && forall b': nat :: b' < b ==> !SumsTo(numbers, target, a, b')
  }

  /** Extending a range never lowers its sum. */
  lemma SumGrows(numbers: seq<nat>, a: nat, b: nat, c: nat)
    requires a <= b <= c < |numbers|
    ensures Sum(Span(numbers, a, b)) <= Sum(Span(numbers, a, c))
  {
    assert Span(numbers, a, c) == Span(numbers, a, b) + numbers[b + 1..c + 1];
    SumAppend(Span(numbers, a, b), numbers[b + 1..c + 1]);
  }

  /** `find_contiguous_range_to_invalid_code`: from each start in turn,
      extend the range until its sum passes `target`; the first range of at
      least two values that hits `target` gives its least plus its greatest
      value (the first and last after sorting). */
  method FindContiguousRange(numbers: seq<nat>, target: nat) returns (r: Option<nat>)
    ensures r.Some? <==> exists a: nat, b: nat :: SumsTo(numbers, target, a, b)
    ensures r.Some? ==> exists a: nat, b: nat :: (FirstRange(numbers, target, a, b)
                          && r.value == Min(Span(numbers, a, b)) + Max(Span(numbers, a, b)))
  {
    var a := 0;
    while a < |numbers|
      invariant 0 <= a <= |numbers|
      invariant forall a': nat, b': nat :: a' < a ==> !SumsTo(numbers, target, a', b')
    {
      var matches: seq<nat> := [];
      var b := a;
      while b < |numbers|
        invariant a <= b <= |numbers|
        invariant matches == numbers[a..b]
        invariant forall b': nat :: b' < b ==> !SumsTo(numbers, target, a, b')
      {
        matches := matches + [numbers[b]];
        assert matches == Span(numbers, a, b);
        var sum := Sum(matches);
        if sum > target {
          forall b' | b <= b' < |numbers|
            ensures !SumsTo(numbers, target, a, b')
          {
            SumGrows(numbers, a, b, b');
          }
          break;
        } else if |matches| > 1 && sum == target {
          assert FirstRange(numbers, target, a, b);
          return Some(Min(matches) + Max(matches));
        }
        b := b + 1;
      }
      a := a + 1;
    }
    return None;
  }

  // ---------------------------------------------------------------------------
  // The answers
  // ---------------------------------------------------------------------------

  const Preamble := 25

  /** `attempt_silver`: the first value that is not a pair sum of the 25
      before it. */
  method Silver(day: Day09) returns (r: Result<nat>)
    ensures r.Ok? <==> exists key: nat :: FirstRunEnd(day.numbers, Preamble, 1, key)
    ensures r.Ok? ==> exists key: nat :: FirstRunEnd(day.numbers, Preamble, 1, key)
                                   && !IsValidAt(day.numbers, Preamble, key) && r.value == day.numbers[key]
    ensures r.Err? ==> r.error == NoResult
  {
    var code := FindInvalidCode(day.numbers, Preamble, 1);
    match code {
      case Some(value) =>
        ghost var key: nat :| FirstRunEnd(day.numbers, Preamble, 1, key) && value == Sum(day.numbers[key..key + 1]);
        assert day.numbers[key..key + 1] == [day.numbers[key]];
        r := Ok(value);
      case None =>
        r := Err(NoResult);
    }
  }

  /** `attempt_gold`: the weakness of the first invalid value, the least
      plus the greatest value of the first range summing to it. */
  method Gold(day: Day09) returns (r: Result<nat>)
    ensures r.Ok? ==> exists key: nat, a: nat, b: nat :: FirstRunEnd(day.numbers, Preamble, 1, key)
                        && FirstRange(day.numbers, day.numbers[key], a, b)
                        && r.value == Min(Span(day.numbers, a, b)) + Max(Span(day.numbers, a, b))
    ensures r.Err? ==> r.error == NoInvalidCode
    ensures (exists key: nat :: FirstRunEnd(day.numbers, Preamble, 1, key)) && r.Err? ==>
              forall key: nat, a: nat, b: nat :: FirstRunEnd(day.numbers, Preamble, 1, key)
                ==> !SumsTo(day.numbers, day.numbers[key], a, b)
  {
    var code := Silver(day);
    if code.Err? {
      return Err(NoInvalidCode);
    }
    ghost var key: nat :| FirstRunEnd(day.numbers, Preamble, 1, key) && code.value == day.numbers[key];
    var range := FindContiguousRange(day.numbers, code.value);
    match range {
      case Some(v) =>
        r := Ok(v);
      case None =>
        NoRangeForCode(day.numbers, key);
        r := Err(NoInvalidCode);
    }
  }

  /** With no range adding up to the value at the first position, no
      range adds up to the value at any first position. */
  lemma NoRangeForCode(numbers: seq<nat>, key: nat)
    requires FirstRunEnd(numbers, Preamble, 1, key)
    requires !exists a: nat, b: nat :: SumsTo(numbers, numbers[key], a, b)
    ensures forall k: nat, a: nat, b: nat :: FirstRunEnd(numbers, Preamble, 1, k) ==> !SumsTo(numbers, numbers[k], a, b)
  {
    FirstRunEndUnique(numbers, Preamble, 1, key);
  }

  /** There is only one first position. */
  lemma FirstRunEndUnique(numbers: seq<nat>, preamble: nat, length: nat, key: nat)
    requires FirstRunEnd(numbers, preamble, length, key)
    ensures forall k: nat :: FirstRunEnd(numbers, preamble, length, k) ==> k == key
  {
  }
}
