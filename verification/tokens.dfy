/** The day-8 instruction interpreter: a stream of `nop`/`jmp`/`acc` tokens,
    run until it falls off the end or is about to execute a position a second
    time, and the repair search that flips one `jmp`/`nop` at a time until a
    flipped stream runs off the end. */
module Tokens {
  import opened Wrappers

  datatype Token = NoOperation(operand: int) | Jump(operand: int) | Accumulate(operand: int)

  datatype EndState = EndOfStream(acc: int) | RecursionInterrupt(acc: int)

  type TokenStream = seq<Token>

  const JumpBeforeStart := "Attempted to jump to an instruction before the start of the program"
  const JumpAfterEnd := "Attempted to jump to an instruction after the end of the program"
  const NoRepairFound := "Diagnostic function did not detect a flippable instruction to repair this program."

  // ---------------------------------------------------------------------------
  // Reference semantics: where each token sends the cursor, and what it adds
  // ---------------------------------------------------------------------------

  /** The bounds-checked jump: the target may be any position from the first
      token up to one past the last. */
  function MoveCursor(len: nat, cursor: nat, distance: int): (r: Result<nat>)
    ensures r.Ok? <==> 0 <= cursor + distance <= len
    ensures r.Ok? ==> r.value == cursor + distance
    ensures r.Err? ==> r.error == (if cursor + distance < 0 then JumpBeforeStart else JumpAfterEnd)
  {
    var target := cursor + distance;
    if target < 0 then Err(JumpBeforeStart)
    else if target > len then Err(JumpAfterEnd)
    else Ok(target)
  }

  /** The cursor after executing the token at `pc`: one further for `nop` and
      `acc`, the bounds-checked target for `jmp`. */
  function Next(tokens: TokenStream, pc: nat): Result<nat>
    requires pc < |tokens|
  {
    match tokens[pc]
    case Jump(d) => MoveCursor(|tokens|, pc, d)
    case _ => Ok(pc + 1)
  }

  /** What executing a token adds to the accumulator. */
  function Gain(t: Token): int {
    if t.Accumulate? then t.operand else 0
  }

  predicate Distinct(s: seq<nat>) {
    forall i, j :: 0 <= i < j < |s| ==> s[i] != s[j]
  }

  predicate InRange(s: seq<nat>, n: nat) {
    forall i :: 0 <= i < |s| ==> s[i] < n
  }

  /** `trace` is the list of positions a run executes, in order: it starts at
      position 0, every position follows from the previous one, and none
      repeats. */
  ghost predicate IsTrace(tokens: TokenStream, trace: seq<nat>) {
    && InRange(trace, |tokens|)
    && Distinct(trace)
    && (|trace| > 0 ==> trace[0] == 0)
    && (forall i :: 0 <= i < |trace| - 1 ==> Next(tokens, trace[i]) == Ok(trace[i + 1]))
  }

  /** The cursor once the positions of `trace` have been executed. */
  function After(tokens: TokenStream, trace: seq<nat>): Result<nat>
    requires InRange(trace, |tokens|)
  {
    if |trace| == 0 then Ok(0) else Next(tokens, trace[|trace| - 1])
  }

  /** The accumulator once the positions of `trace` have been executed. */
  function Accumulated(tokens: TokenStream, trace: seq<nat>): int
    requires InRange(trace, |tokens|)
  {
    if |trace| == 0 then 0
    else Accumulated(tokens, trace[..|trace| - 1]) + Gain(tokens[trace[|trace| - 1]])
  }

  /** How a run whose executed positions are `trace` ends: off the end of the
      stream, back at a position it already executed, or at a bad jump. */
  ghost predicate Stops(tokens: TokenStream, trace: seq<nat>, outcome: Result<EndState>)
    requires InRange(trace, |tokens|)
  {
    match outcome
    case Ok(EndOfStream(a)) => After(tokens, trace) == Ok(|tokens|) && a == Accumulated(tokens, trace)
    case Ok(RecursionInterrupt(a)) =>
      After(tokens, trace).Ok? && After(tokens, trace).value in trace && a == Accumulated(tokens, trace)
    case Err(e) => After(tokens, trace) == Err(e)
  }

  /** The stream has a run that ends with `outcome`. */
  ghost predicate Behaves(tokens: TokenStream, outcome: Result<EndState>) {
    exists trace :: IsTrace(tokens, trace) && Stops(tokens, trace, outcome)
  }

  // ---------------------------------------------------------------------------
  // The interpreter loop
  // ---------------------------------------------------------------------------

  /** The end of a run: its outcome and the positions it executed. */
  datatype Halt = Halt(outcome: Result<EndState>, trace: seq<nat>)

  /** The loop of `accumulate_until_tokens_repeat` from the state (`cursor`,
      `acc`, `tracker`): stop at the end of the stream, stop before executing
      a position already in the tracker, else record the position and
      execute it. */
  function Run(tokens: TokenStream, cursor: nat, acc: int, tracker: seq<nat>): (h: Halt)
    requires cursor <= |tokens|
    requires InRange(tracker, |tokens|) && Distinct(tracker)
    ensures InRange(h.trace, |tokens|) && Distinct(h.trace)
    ensures |h.trace| <= |tokens|
    ensures tracker <= h.trace
    decreases |tokens| - |tracker|
  {
    DistinctBelowBound(tracker, |tokens|);
    if cursor == |tokens| then Halt(Ok(EndOfStream(acc)), tracker)
    else if cursor in tracker then Halt(Ok(RecursionInterrupt(acc)), tracker)
    else
      var tracker' := tracker + [cursor];
      DistinctBelowBound(tracker', |tokens|);
      match tokens[cursor]
      case NoOperation(_) => Run(tokens, cursor + 1, acc, tracker')
      case Accumulate(v) => Run(tokens, cursor + 1, acc + v, tracker')
      case Jump(d) =>
        match MoveCursor(|tokens|, cursor, d)
        case Err(e) => Halt(Err(e), tracker')
        case Ok(target) => Run(tokens, target, acc, tracker')
  }

  /** `TokenStream::accumulate_until_tokens_repeat`: run from position 0 with
      an empty tracker and a zero accumulator. */
  function AccumulateUntilTokensRepeat(tokens: TokenStream): (r: Result<EndState>)
    ensures |tokens| == 0 ==> r == Ok(EndOfStream(0))
  {
    Run(tokens, 0, 0, []).outcome
  }

  // ---------------------------------------------------------------------------
  // The interpreter agrees with the reference semantics
  // ---------------------------------------------------------------------------

  /** From a state reached by executing `tracker`, the run extends the trace
      and ends the way the reference semantics says. */
  lemma {:induction false} RunFollowsTrace(tokens: TokenStream, cursor: nat, acc: int, tracker: seq<nat>)
    requires cursor <= |tokens|
    requires IsTrace(tokens, tracker)
    requires After(tokens, tracker) == Ok(cursor)
    requires acc == Accumulated(tokens, tracker)
    ensures IsTrace(tokens, Run(tokens, cursor, acc, tracker).trace)
    ensures Stops(tokens, Run(tokens, cursor, acc, tracker).trace, Run(tokens, cursor, acc, tracker).outcome)
    decreases |tokens| - |tracker|
  {
    if cursor == |tokens| || cursor in tracker {
    } else {
      var tracker' := tracker + [cursor];
      ExtendTrace(tokens, tracker, cursor);
      RunExecutes(tokens, cursor, acc, tracker);
      if Next(tokens, cursor).Ok? {
        RunFollowsTrace(tokens, Next(tokens, cursor).value, acc + Gain(tokens[cursor]), tracker');
      }
    }
  }

  /** One step of the loop: execute the token at `cursor`, then carry on
      from where it sends the cursor, or stop at a bad jump. */
  lemma RunExecutes(tokens: TokenStream, cursor: nat, acc: int, tracker: seq<nat>)
    requires cursor < |tokens| && cursor !in tracker
    requires InRange(tracker, |tokens|) && Distinct(tracker)
    ensures InRange(tracker + [cursor], |tokens|) && Distinct(tracker + [cursor])
    ensures Next(tokens, cursor).Ok? ==> Next(tokens, cursor).value <= |tokens|
    ensures Run(tokens, cursor, acc, tracker) ==
              match Next(tokens, cursor)
              case Ok(target) => Run(tokens, target, acc + Gain(tokens[cursor]), tracker + [cursor])
              case Err(e) => Halt(Err(e), tracker + [cursor])
  {
    DistinctBelowBound(tracker + [cursor], |tokens|);
  }

  /** Executing the next, not yet executed, position extends a trace. */
  lemma ExtendTrace(tokens: TokenStream, tracker: seq<nat>, cursor: nat)
    requires IsTrace(tokens, tracker)
    requires After(tokens, tracker) == Ok(cursor)
    requires cursor < |tokens| && cursor !in tracker
    ensures IsTrace(tokens, tracker + [cursor])
    ensures Accumulated(tokens, tracker + [cursor]) == Accumulated(tokens, tracker) + Gain(tokens[cursor])
    ensures After(tokens, tracker + [cursor]) == Next(tokens, cursor)
  {
    var tracker' := tracker + [cursor];
    assert tracker'[..|tracker'| - 1] == tracker;
    forall i | 0 <= i < |tracker'| - 1
      ensures Next(tokens, tracker'[i]) == Ok(tracker'[i + 1])
    {
      if i < |tracker| - 1 {
        assert tracker'[i] == tracker[i] && tracker'[i + 1] == tracker[i + 1];
      } else {
        assert tracker'[i] == tracker[|tracker| - 1];
      }
    }
  }

  /** Executing one more position adds its token's gain. */
  lemma AccumulatedPush(tokens: TokenStream, trace: seq<nat>, p: nat)
    requires InRange(trace, |tokens|) && p < |tokens|
    ensures InRange(trace + [p], |tokens|)
    ensures Accumulated(tokens, trace + [p]) == Accumulated(tokens, trace) + Gain(tokens[p])
  {
    assert (trace + [p])[..|trace|] == trace;
  }

  /** Two traces of the same stream agree on their common length. */
  lemma {:induction false} TracesArePrefixes(tokens: TokenStream, t: seq<nat>, u: seq<nat>)
    requires IsTrace(tokens, t) && IsTrace(tokens, u)
    requires |t| <= |u|
    ensures t == u[..|t|]
  {
    var k := 0;
    while k < |t|
      invariant k <= |t|
      invariant t[..k] == u[..k]
    {
      if k > 0 {
        assert t[k - 1] == u[k - 1];
        assert Next(tokens, t[k - 1]) == Ok(t[k]);
        assert Next(tokens, u[k - 1]) == Ok(u[k]);
      }
      assert t[..k + 1] == t[..k] + [t[k]];
      assert u[..k + 1] == u[..k] + [u[k]];
      k := k + 1;
    }
    assert t == t[..k];
  }

  /** A trace that stops cannot be a proper prefix of another trace. */
  lemma StoppedTraceIsMaximal(tokens: TokenStream, t: seq<nat>, u: seq<nat>, o: Result<EndState>)
    requires IsTrace(tokens, t) && IsTrace(tokens, u)
    requires Stops(tokens, t, o)
    ensures |u| <= |t|
  {
    if |t| < |u| {
      TraceContinues(tokens, t, u);
      assert false;
    }
  }

  /** A trace shorter than another is continued by the other's next position,
      which it has not executed. */
  lemma TraceContinues(tokens: TokenStream, t: seq<nat>, u: seq<nat>)
    requires IsTrace(tokens, t) && IsTrace(tokens, u)
    requires |t| < |u|
    ensures After(tokens, t) == Ok(u[|t|])
    ensures u[|t|] !in t && u[|t|] < |tokens|
  {
    var n := |t|;
    TracesArePrefixes(tokens, t, u);
    if n > 0 {
      assert t[n - 1] == u[n - 1];
    }
    forall j | 0 <= j < n
      ensures t[j] != u[n]
    {
      assert t[j] == u[j];
    }
  }

  /** A stream has exactly one stopping run: the trace and the outcome are
      determined by the tokens. */
  lemma StoppingRunIsUnique(tokens: TokenStream, t: seq<nat>, o1: Result<EndState>, u: seq<nat>, o2: Result<EndState>)
    requires IsTrace(tokens, t) && Stops(tokens, t, o1)
    requires IsTrace(tokens, u) && Stops(tokens, u, o2)
    ensures t == u && o1 == o2
  {
    StoppedTraceIsMaximal(tokens, t, u, o1);
    StoppedTraceIsMaximal(tokens, u, t, o2);
    TracesArePrefixes(tokens, t, u);
    assert t == u;
    if After(tokens, t).Ok? && After(tokens, t).value == |tokens| {
      assert |tokens| !in t;
    }
  }

  /** The interpreter's result is exactly the outcome of the stream's run:
      `EndOfStream(a)` when the run falls off the end having accumulated `a`,
      `RecursionInterrupt(a)` when it is about to re-execute a position having
      accumulated `a` (the repeated token not executed twice), and the jump
      error when a jump leaves `[0, len]`. */
  lemma AccumulateMatchesSemantics(tokens: TokenStream, outcome: Result<EndState>)
    ensures AccumulateUntilTokensRepeat(tokens) == outcome <==> Behaves(tokens, outcome)
  {
    RunFollowsTrace(tokens, 0, 0, []);
    var h := Run(tokens, 0, 0, []);
    if Behaves(tokens, outcome) {
      var t :| IsTrace(tokens, t) && Stops(tokens, t, outcome);
      StoppingRunIsUnique(tokens, t, outcome, h.trace, h.outcome);
    }
  }

  /** A run executes at most one token per position before it returns. */
  lemma RunIsBounded(tokens: TokenStream)
    ensures |Run(tokens, 0, 0, []).trace| <= |tokens|
    ensures InRange(Run(tokens, 0, 0, []).trace, |tokens|)
  {
  }

  /** Only `acc` tokens change the accumulator: a stream without them ends
      with a zero accumulator. */
  lemma NoAccumulateMeansZero(tokens: TokenStream)
    requires forall i :: 0 <= i < |tokens| ==> !tokens[i].Accumulate?
    ensures AccumulateUntilTokensRepeat(tokens).Ok? ==> AccumulateUntilTokensRepeat(tokens).value.acc == 0
  {
    RunFollowsTrace(tokens, 0, 0, []);
    var h := Run(tokens, 0, 0, []);
    AccumulatedWithoutGain(tokens, h.trace);
  }

  lemma {:induction false} AccumulatedWithoutGain(tokens: TokenStream, trace: seq<nat>)
    requires InRange(trace, |tokens|)
    requires forall i :: 0 <= i < |tokens| ==> !tokens[i].Accumulate?
    ensures Accumulated(tokens, trace) == 0
    decreases |trace|
  {
    if |trace| > 0 {
      AccumulatedWithoutGain(tokens, trace[..|trace| - 1]);
    }
  }

  /** The first token's jump decides the run on its own when it leaves the
      stream: to exactly one past the end is a normal end, any further or
      before the start is an error. */
  lemma FirstJumpBounds(tokens: TokenStream)
    requires |tokens| > 0 && tokens[0].Jump?
    ensures tokens[0].operand == |tokens| ==> AccumulateUntilTokensRepeat(tokens) == Ok(EndOfStream(0))
    ensures tokens[0].operand > |tokens| ==> AccumulateUntilTokensRepeat(tokens) == Err(JumpAfterEnd)
    ensures tokens[0].operand < 0 ==> AccumulateUntilTokensRepeat(tokens) == Err(JumpBeforeStart)
  {
    var t := [0];
    assert IsTrace(tokens, t);
    assert Accumulated(tokens, t) == 0 by {
      assert t[..0] == [];
    }
    if tokens[0].operand == |tokens| {
      assert Stops(tokens, t, Ok(EndOfStream(0)));
      AccumulateMatchesSemantics(tokens, Ok(EndOfStream(0)));
    } else if tokens[0].operand > |tokens| {
      assert Stops(tokens, t, Err(JumpAfterEnd));
      AccumulateMatchesSemantics(tokens, Err(JumpAfterEnd));
    } else if tokens[0].operand < 0 {
      assert Stops(tokens, t, Err(JumpBeforeStart));
      AccumulateMatchesSemantics(tokens, Err(JumpBeforeStart));
    }
  }

  // ---------------------------------------------------------------------------
  // Pigeonhole: the tracker never outgrows the stream
  // ---------------------------------------------------------------------------

  /** The positions occurring in `s`. */
  function Elems(s: seq<nat>): (r: set<nat>)
    ensures forall x :: x in r <==> x in s
  {
    if |s| == 0 then {} else Elems(s[..|s| - 1]) + {s[|s| - 1]}
  }

  lemma {:induction false} DistinctSetSize(s: seq<nat>)
    requires Distinct(s)
    ensures |Elems(s)| == |s|
    decreases |s|
  {
    if |s| > 0 {
      DistinctSetSize(s[..|s| - 1]);
      assert s[|s| - 1] !in s[..|s| - 1];
    }
  }

  /** The positions `0 .. n - 1`. */
  function Below(n: nat): (r: set<nat>)
    ensures |r| == n
    ensures forall x :: x in r <==> 0 <= x < n
  {
    if n == 0 then {} else Below(n - 1) + {n - 1}
  }

  /** Distinct positions below `n` number at most `n`. */
  lemma DistinctBelowBound(s: seq<nat>, n: nat)
    requires Distinct(s) && InRange(s, n)
    ensures |s| <= n
  {
    var elems := Elems(s);
    var range := Below(n);
    DistinctSetSize(s);
    forall x | x in elems
      ensures x in range
    {
    }
    assert range == elems + (range - elems);
    assert elems * (range - elems) == {};
  }

  // ---------------------------------------------------------------------------
  // The repair search
  // ---------------------------------------------------------------------------

  /** `jmp v` becomes `nop v` and `nop v` becomes `jmp v`; `acc` is left as is. */
  function Flip(t: Token): (r: Token)
    ensures r.operand == t.operand
    ensures r.Accumulate? <==> t.Accumulate?
    ensures !t.Accumulate? ==> r.Jump? == t.NoOperation?
  {
    match t
    case Jump(v) => NoOperation(v)
    case NoOperation(v) => Jump(v)
    case Accumulate(v) => Accumulate(v)
  }

  /** Flipping twice restores the token. */
  lemma FlipIsInvolution(t: Token)
    ensures Flip(Flip(t)) == t
  {
  }

  /** The stream with the token at `key` flipped; every other token kept. */
  function Candidate(tokens: TokenStream, key: nat): (c: TokenStream)
    requires key < |tokens|
    ensures |c| == |tokens| && c[key] == Flip(tokens[key])
    ensures forall i :: 0 <= i < |tokens| && i != key ==> c[i] == tokens[i]
  {
    tokens[key := Flip(tokens[key])]
  }

  /** Flipping the `jmp`/`nop` at `key` makes the stream run off its end. */
  ghost predicate Fixes(tokens: TokenStream, key: nat)
    requires key < |tokens|
  {
    && !tokens[key].Accumulate?
    && AccumulateUntilTokensRepeat(Candidate(tokens, key)).Ok?
    && AccumulateUntilTokensRepeat(Candidate(tokens, key)).value.EndOfStream?
  }

  /** `key` is the lowest position at or after `from` whose flip fixes the
      stream, and `v` is the flipped stream's final accumulator. */
  ghost predicate FirstFix(tokens: TokenStream, from: nat, key: nat, v: int) {
    && from <= key < |tokens|
    && Fixes(tokens, key)
    && AccumulateUntilTokensRepeat(Candidate(tokens, key)) == Ok(EndOfStream(v))
    && forall j :: from <= j < key ==> !Fixes(tokens, j)
  }

  /** The loop of `diagnose_bad_token` from position `key` on: skip `acc`,
      try the flipped stream, return its accumulator when it ends normally,
      and move on after a cycle or a jump error. */
  function DiagnoseFrom(tokens: TokenStream, key: nat): (r: Result<int>)
    requires key <= |tokens|
    ensures r.Ok? ==> exists k: nat :: FirstFix(tokens, key, k, r.value)
    ensures r.Err? ==> r.error == NoRepairFound && forall j :: key <= j < |tokens| ==> !Fixes(tokens, j)
    decreases |tokens| - key
  {
    if key == |tokens| then Err(NoRepairFound)
    else if tokens[key].Accumulate? then
      var r := DiagnoseFrom(tokens, key + 1);
      assert r.Ok? ==> exists k: nat :: FirstFix(tokens, key, k, r.value) by {
        if r.Ok? {
          var k: nat :| FirstFix(tokens, key + 1, k, r.value);
          assert FirstFix(tokens, key, k, r.value);
        }
      }
      r
    else
      match AccumulateUntilTokensRepeat(Candidate(tokens, key))
      case Ok(EndOfStream(v)) =>
        assert FirstFix(tokens, key, key, v);
        Ok(v)
      case _ =>
        var r := DiagnoseFrom(tokens, key + 1);
        assert r.Ok? ==> exists k: nat :: FirstFix(tokens, key, k, r.value) by {
          if r.Ok? {
            var k: nat :| FirstFix(tokens, key + 1, k, r.value);
            assert FirstFix(tokens, key, k, r.value);
          }
        }
        r
  }

  /** `TokenStream::diagnose_bad_token`: the accumulator of the lowest-index
      flip that ends normally, or an error when no flip does. */
  function DiagnoseBadToken(tokens: TokenStream): (r: Result<int>)
    ensures r.Ok? <==> exists k: nat :: k < |tokens| && Fixes(tokens, k)
    ensures r.Ok? ==> exists k: nat :: FirstFix(tokens, 0, k, r.value)
    ensures r.Err? ==> r.error == NoRepairFound
  {
    DiagnoseFrom(tokens, 0)
  }

  /** The search result does not depend on which fixing flip is looked at
      first: any lowest fixing position gives the returned value. */
  lemma DiagnoseIsFirstFix(tokens: TokenStream, key: nat, v: int)
    requires FirstFix(tokens, 0, key, v)
    ensures DiagnoseBadToken(tokens) == Ok(v)
  {
    var r := DiagnoseBadToken(tokens);
    assert r.Ok?;
    var k: nat :| FirstFix(tokens, 0, k, r.value);
  }
}
