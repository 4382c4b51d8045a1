/** Day 8: the line parser that builds a token stream from the puzzle input,
    and the two answers computed from it. */
module Day08 {
  import opened Wrappers
  import opened Text
  import opened Tokens

  datatype Day08 = Day08(tokens: TokenStream)

  const NoRecursion := "Recursion did not happen."

  /** One input line: exactly two whitespace-separated words, an opcode among
      `nop`/`jmp`/`acc` and an integer operand. */
  function ParseLine(line: string): (r: Result<Token>)
    ensures r.Ok? <==> (|SplitWhitespace(line)| == 2
                        && SplitWhitespace(line)[0] in {"nop", "jmp", "acc"}
                        && ParseSigned(SplitWhitespace(line)[1]).Some?)
    ensures r.Ok? ==> ParseSigned(SplitWhitespace(line)[1]) == Some(r.value.operand)
    ensures r.Ok? ==> ((r.value.NoOperation? <==> SplitWhitespace(line)[0] == "nop")
                    && (r.value.Jump? <==> SplitWhitespace(line)[0] == "jmp"))
  {
    var words := SplitWhitespace(line);
    if |words| != 2 then Err("too many words found on line: " + line)
    else
      match (words[0], ParseSigned(words[1]))
      case ("nop", Some(v)) => Ok(NoOperation(v))
      case ("jmp", Some(v)) => Ok(Jump(v))
      case ("acc", Some(v)) => Ok(Accumulate(v))
      case _ => Err("Unrecognized instruction: " + line)
  }

  /** Line `i` is the first line that fails, with error `e`. */
  predicate FailsFirstAt(lines: seq<string>, i: int, e: string) {
    0 <= i < |lines| && ParseLine(lines[i]) == Err(e) && forall j :: 0 <= j < i ==> ParseLine(lines[j]).Ok?
  }

  /** A failed parsing loop stopped at the first failing line. */
  lemma ParseFailsFirst(lines: seq<string>)
    requires Reaches(lines, ParseLine) && MapUntilErr(lines, ParseLine).Err?
    ensures exists i :: FailsFirstAt(lines, i, MapUntilErr(lines, ParseLine).error)
    ensures !forall i :: 0 <= i < |lines| ==> ParseLine(lines[i]).Ok?
  {
    MapUntilErrFails(lines, ParseLine);
    var parse := ParseLine;
    var e := MapUntilErr(lines, ParseLine).error;
    var i :| 0 <= i < |lines| && parse(lines[i]) == Err(e) && forall j :: 0 <= j < i ==> parse(lines[j]).Ok?;
    assert FailsFirstAt(lines, i, e);
  }

  /** `Day08::new`: the input split on `"\n"`, one token per line. An empty
      line, a trailing newline included, has no words and is an error. */
  function New(data: string): (r: Result<Day08>)
    ensures r.Ok? <==> forall i :: 0 <= i < |SplitOn(data, "\n")| ==> ParseLine(SplitOn(data, "\n")[i]).Ok?
    ensures r.Ok? ==> |r.value.tokens| == |SplitOn(data, "\n")|
    ensures r.Ok? ==> forall i :: 0 <= i < |r.value.tokens| ==> ParseLine(SplitOn(data, "\n")[i]) == Ok(r.value.tokens[i])
    ensures r.Err? ==> exists i :: FailsFirstAt(SplitOn(data, "\n"), i, r.error)
  {
    var lines := SplitOn(data, "\n");
    TotalReaches(lines, ParseLine);
    match MapUntilErr(lines, ParseLine)
    case Ok(tokens) => Ok(Day08(tokens))
    case Err(e) =>
      ParseFailsFirst(lines);
      assert !forall i :: 0 <= i < |SplitOn(data, "\n")| ==> ParseLine(SplitOn(data, "\n")[i]).Ok?;
      Err(e)
  }

  /** A trailing newline leaves an empty last line, which is rejected. */
  lemma TrailingNewlineFails(data: string)
    ensures New(data + "\n").Err?
  {
    var s := data + "\n";
    var lines := SplitOn(s, "\n");
    assert s[|s| - 1] == '\n';
    LastPieceEmpty(lines, '\n');
    assert SplitWhitespace(lines[|lines| - 1]) == [];
  }

  /** `attempt_silver`: the accumulator when the run is interrupted by a
      repeat; an error when the stream ends normally or a jump fails. */
  function Silver(day: Day08): (r: Result<int>)
    ensures forall a :: r == Ok(a) <==> Behaves(day.tokens, Ok(RecursionInterrupt(a)))
    ensures r.Err? ==> r.error == NoRecursion
  {
    match AccumulateUntilTokensRepeat(day.tokens)
    case Ok(RecursionInterrupt(a)) =>
      assert forall b :: b == a <==> Behaves(day.tokens, Ok(RecursionInterrupt(b))) by {
        forall b {
          AccumulateMatchesSemantics(day.tokens, Ok(RecursionInterrupt(b)));
        }
      }
      Ok(a)
    case _ =>
      assert forall a :: !Behaves(day.tokens, Ok(RecursionInterrupt(a))) by {
        forall a {
          AccumulateMatchesSemantics(day.tokens, Ok(RecursionInterrupt(a)));
        }
      }
      Err(NoRecursion)
  }

  /** `attempt_gold`: the repair search, unchanged: the final accumulator of
      the lowest-position flip that makes the stream run off its end. */
  function Gold(day: Day08): (r: Result<int>)
    ensures r.Ok? <==> exists k: nat :: k < |day.tokens| && Fixes(day.tokens, k)
    ensures r.Ok? ==> exists k: nat :: FirstFix(day.tokens, 0, k, r.value)
    ensures r.Err? ==> r.error == NoRepairFound
  {
    DiagnoseBadToken(day.tokens)
  }

  // ---------------------------------------------------------------------------
  // Rendering, the parser's inverse
  // ---------------------------------------------------------------------------

  /** A token as an input line: opcode, one space, signed operand. */
  function ShowToken(t: Token): string {
    OpName(t) + " " + SignedToString(t.operand)
  }

  function OpName(t: Token): string {
    match t
    case NoOperation(_) => "nop"
    case Jump(_) => "jmp"
    case Accumulate(_) => "acc"
  }

  /** A non-empty stream as puzzle input: one line per token, no trailing
      newline. */
  function Show(tokens: TokenStream): string {
    Join(ShowLines(tokens), "\n")
  }

  /** One rendered line per token. */
  function ShowLines(tokens: TokenStream): (lines: seq<string>)
    ensures |lines| == |tokens|
    ensures forall i :: 0 <= i < |tokens| ==> lines[i] == ShowToken(tokens[i])
  {
    seq(|tokens|, i requires 0 <= i < |tokens| => ShowToken(tokens[i]))
  }

  lemma SignedIsWord(v: int)
    ensures IsWord(SignedToString(v))
  {
    var s := SignedToString(v);
    forall i | 0 <= i < |s|
      ensures !IsWhitespace(s[i])
    {
      if i > 0 {
        assert s[i] == s[1..][i - 1];
      }
    }
  }

  /** An opcode, a space and a rendered operand split back into those two
      words, and the line holds no newline. */
  lemma OpLineWords(op: string, v: int)
    requires op in {"nop", "jmp", "acc"}
    ensures SplitWhitespace(op + " " + SignedToString(v)) == [op, SignedToString(v)]
    ensures '\n' !in op + " " + SignedToString(v)
  {
    var arg := SignedToString(v);
    SignedIsWord(v);
    assert IsWord(op);
    assert JoinSpaced([op, arg]) == op + " " + arg;
    SplitWhitespaceOfJoinSpaced([op, arg]);
    assert IsWhitespace('\n');
  }

  /** Every rendered line parses back to its token. */
  lemma ParseShowToken(t: Token)
    ensures ParseLine(ShowToken(t)) == Ok(t)
    ensures '\n' !in ShowToken(t)
  {
    OpLineWords(OpName(t), t.operand);
    ParseOpLine(OpName(t), t.operand);
  }

  /** A line of an opcode and a rendered operand parses to the token the
      opcode names. */
  lemma ParseOpLine(op: string, v: int)
    requires op in {"nop", "jmp", "acc"}
    ensures ParseLine(op + " " + SignedToString(v)) ==
              Ok(if op == "nop" then NoOperation(v) else if op == "jmp" then Jump(v) else Accumulate(v))
  {
    OpLineWords(op, v);
    ParseSignedRoundTrip(v);
  }

  /** Parsing the rendering of a non-empty stream gives the stream back. */
  lemma NewShowRoundTrip(tokens: TokenStream)
    requires |tokens| > 0
    ensures New(Show(tokens)) == Ok(Day08(tokens))
  {
    var lines := ShowLines(tokens);
    forall i | 0 <= i < |lines|
      ensures '\n' !in lines[i] && ParseLine(lines[i]) == Ok(tokens[i])
    {
      ParseShowToken(tokens[i]);
    }
    SplitOnJoin(lines, '\n');
    MapUntilErrAll(lines, ParseLine, tokens);
  }

  // ---------------------------------------------------------------------------
  // The sample program
  // ---------------------------------------------------------------------------

  const Sample: TokenStream := [
    NoOperation(0), Accumulate(1), Jump(4), Accumulate(3), Jump(-3),
    Accumulate(-99), Accumulate(1), Jump(-4), Accumulate(6)
  ]

  /** The lines of the example program's text. */
  const SampleLines: seq<string> :=
    ["nop +0", "acc +1", "jmp +4", "acc +3", "jmp -3", "acc -99", "acc +1", "jmp -4", "acc +6"]

  /** The example program's text: its lines joined with newlines, and no
      newline after the last. */
  const SampleText: string := Join(SampleLines, "\n")

  /** The operands of the example program render with their sign. */
  lemma SampleOperands()
    ensures SignedToString(0) == "+0" && SignedToString(1) == "+1" && SignedToString(3) == "+3"
    ensures SignedToString(4) == "+4" && SignedToString(6) == "+6"
    ensures SignedToString(-3) == "-3" && SignedToString(-4) == "-4" && SignedToString(-99) == "-99"
  {
    assert NatToString(99) == NatToString(9) + [DigitChar(9)];
  }

  /** A token renders as `line` when its name and operand do. */
  lemma ShowTokenLine(t: Token, op: string, operand: string, line: string)
    requires OpName(t) == op && SignedToString(t.operand) == operand && op + " " + operand == line
    ensures ShowToken(t) == line
  {
  }

  /** The example program renders line by line as its text. */
  lemma SampleShowLines()
    ensures ShowLines(Sample) == SampleLines
  {
    SampleOperands();
    ShowTokenLine(Sample[0], "nop", "+0", "nop +0");
    ShowTokenLine(Sample[1], "acc", "+1", "acc +1");
    ShowTokenLine(Sample[2], "jmp", "+4", "jmp +4");
    ShowTokenLine(Sample[3], "acc", "+3", "acc +3");
    ShowTokenLine(Sample[4], "jmp", "-3", "jmp -3");
    ShowTokenLine(Sample[5], "acc", "-99", "acc -99");
    ShowTokenLine(Sample[6], "acc", "+1", "acc +1");
    ShowTokenLine(Sample[7], "jmp", "-4", "jmp -4");
    ShowTokenLine(Sample[8], "acc", "+6", "acc +6");
  }

  /** The example text reads as the example program. */
  lemma SampleParses()
    ensures New(SampleText) == Ok(Day08(Sample))
  {
    SampleShowLines();
    NewShowRoundTrip(Sample);
  }

  /** Running `tokens` executes exactly the positions of `trace`, in order,
      and arrives at `cursor` with accumulator `acc`. */
  ghost predicate Reached(tokens: TokenStream, trace: seq<nat>, cursor: nat, acc: int) {
    IsTrace(tokens, trace) && After(tokens, trace) == Ok(cursor) && Accumulated(tokens, trace) == acc
  }

  /** One step of a run: execute the position the cursor is at. */
  lemma Advance(tokens: TokenStream, trace: seq<nat>, cursor: nat, acc: int, next: nat)
    requires Reached(tokens, trace, cursor, acc)
    requires cursor < |tokens| && cursor !in trace && Next(tokens, cursor) == Ok(next)
    ensures Reached(tokens, trace + [cursor], next, acc + Gain(tokens[cursor]))
  {
    ExtendTrace(tokens, trace, cursor);
  }

  /** The first two steps shared by the sample and its flips: `nop +0`,
      `acc +1`. */
  lemma SampleStart(s: TokenStream)
    requires |s| == 9 && s[0] == NoOperation(0) && s[1] == Accumulate(1)
    ensures Reached(s, [0, 1], 2, 1)
  {
    var t0: seq<nat> := [];
    var t1: seq<nat> := [0];
    assert Reached(s, t0, 0, 0);
    assert Reached(s, t1, 1, 0) by { Advance(s, t0, 0, 0, 1); assert t0 + [0] == t1; }
    Advance(s, t1, 1, 0, 2);
    assert t1 + [1] == [0, 1];
  }

  /** Then `jmp +4` and `acc +1`. */
  lemma SampleJumpAhead(s: TokenStream)
    requires |s| == 9 && s[2] == Jump(4) && s[6] == Accumulate(1)
    requires Reached(s, [0, 1], 2, 1)
    ensures Reached(s, [0, 1, 2, 6], 7, 2)
  {
    var t2: seq<nat> := [0, 1];
    var t3: seq<nat> := [0, 1, 2];
    assert Reached(s, t3, 6, 1) by { Advance(s, t2, 2, 1, 6); assert t2 + [2] == t3; }
    Advance(s, t3, 6, 1, 7);
    assert t3 + [6] == [0, 1, 2, 6];
  }

  /** Then `jmp -4` and `acc +3`. */
  lemma SampleJumpBack(s: TokenStream)
    requires |s| == 9 && s[7] == Jump(-4) && s[3] == Accumulate(3)
    requires Reached(s, [0, 1, 2, 6], 7, 2)
    ensures Reached(s, [0, 1, 2, 6, 7, 3], 4, 5)
  {
    var t4: seq<nat> := [0, 1, 2, 6];
    var t5: seq<nat> := [0, 1, 2, 6, 7];
    assert Reached(s, t5, 3, 2) by { Advance(s, t4, 7, 2, 3); assert t4 + [7] == t5; }
    Advance(s, t5, 3, 2, 4);
    assert t5 + [3] == [0, 1, 2, 6, 7, 3];
  }

  /** The sample's run up to the `jmp -3` at 4. */
  lemma SampleUpToFour(s: TokenStream)
    requires |s| == 9 && s[0] == NoOperation(0) && s[1] == Accumulate(1) && s[2] == Jump(4)
    requires s[3] == Accumulate(3) && s[6] == Accumulate(1) && s[7] == Jump(-4)
    ensures Reached(s, [0, 1, 2, 6, 7, 3], 4, 5)
  {
    SampleStart(s);
    SampleJumpAhead(s);
    SampleJumpBack(s);
  }

  lemma SampleRun()
    ensures Reached(Sample, [0, 1, 2, 6, 7, 3, 4], 1, 5)
  {
    var t6: seq<nat> := [0, 1, 2, 6, 7, 3];
    SampleUpToFour(Sample);
    Advance(Sample, t6, 4, 5, 1);
    assert t6 + [4] == [0, 1, 2, 6, 7, 3, 4];
  }

  /** The sample loops back to position 1 after accumulating 5. */
  lemma SampleSilver()
    ensures Silver(Day08(Sample)) == Ok(5)
  {
    var t: seq<nat> := [0, 1, 2, 6, 7, 3, 4];
    SampleRun();
    assert t[1] == 1;
    assert Stops(Sample, t, Ok(RecursionInterrupt(5)));
  }

  const Flipped0: TokenStream := [
    Jump(0), Accumulate(1), Jump(4), Accumulate(3), Jump(-3), Accumulate(-99), Accumulate(1), Jump(-4), Accumulate(6)
  ]

  /** Flipping position 0 gives `jmp +0`, which loops at once. */
  lemma SampleFlip0()
    ensures Behaves(Flipped0, Ok(RecursionInterrupt(0)))
  {
    var s := Flipped0;
    var t0: seq<nat> := [];
    var t: seq<nat> := [0];
    assert Reached(s, t0, 0, 0);
    Advance(s, t0, 0, 0, 0);
    assert t0 + [0] == t;
    assert Stops(s, t, Ok(RecursionInterrupt(0)));
  }

  const Flipped2: TokenStream := [
    NoOperation(0), Accumulate(1), NoOperation(4), Accumulate(3), Jump(-3), Accumulate(-99), Accumulate(1), Jump(-4), Accumulate(6)
  ]

  lemma Flip2UpToThree()
    ensures Reached(Flipped2, [0, 1, 2], 3, 1)
  {
    var t2: seq<nat> := [0, 1];
    SampleStart(Flipped2);
    Advance(Flipped2, t2, 2, 1, 3);
    assert t2 + [2] == [0, 1, 2];
  }

  lemma Flip2UpToFour()
    ensures Reached(Flipped2, [0, 1, 2, 3], 4, 4)
  {
    var t3: seq<nat> := [0, 1, 2];
    Flip2UpToThree();
    Advance(Flipped2, t3, 3, 1, 4);
    assert t3 + [3] == [0, 1, 2, 3];
  }

  lemma Flip2Run()
    ensures Reached(Flipped2, [0, 1, 2, 3, 4], 1, 4)
  {
    var t4: seq<nat> := [0, 1, 2, 3];
    Flip2UpToFour();
    Advance(Flipped2, t4, 4, 4, 1);
    assert t4 + [4] == [0, 1, 2, 3, 4];
  }

  /** Flipping position 2 gives `nop +4`; the `jmp -3` at 4 then loops to 1. */
  lemma SampleFlip2()
    ensures Behaves(Flipped2, Ok(RecursionInterrupt(4)))
  {
    var t: seq<nat> := [0, 1, 2, 3, 4];
    Flip2Run();
    assert t[1] == 1;
    assert Stops(Flipped2, t, Ok(RecursionInterrupt(4)));
  }

  const Flipped4: TokenStream := [
    NoOperation(0), Accumulate(1), Jump(4), Accumulate(3), NoOperation(-3), Accumulate(-99), Accumulate(1), Jump(-4), Accumulate(6)
  ]

  lemma Flip4UpToFive()
    ensures Reached(Flipped4, [0, 1, 2, 6, 7, 3, 4], 5, 5)
  {
    var t6: seq<nat> := [0, 1, 2, 6, 7, 3];
    SampleUpToFour(Flipped4);
    Advance(Flipped4, t6, 4, 5, 5);
    assert t6 + [4] == [0, 1, 2, 6, 7, 3, 4];
  }

  lemma Flip4Run()
    ensures Reached(Flipped4, [0, 1, 2, 6, 7, 3, 4, 5], 6, -94)
  {
    var t7: seq<nat> := [0, 1, 2, 6, 7, 3, 4];
    Flip4UpToFive();
    Advance(Flipped4, t7, 5, 5, 6);
    assert t7 + [5] == [0, 1, 2, 6, 7, 3, 4, 5];
  }

  /** Flipping position 4 gives `nop -3`; the run reaches 5 and then 6 again. */
  lemma SampleFlip4()
    ensures Behaves(Flipped4, Ok(RecursionInterrupt(-94)))
  {
    var t: seq<nat> := [0, 1, 2, 6, 7, 3, 4, 5];
    Flip4Run();
    assert t[3] == 6;
    assert Stops(Flipped4, t, Ok(RecursionInterrupt(-94)));
  }

  const Flipped7: TokenStream := [
    NoOperation(0), Accumulate(1), Jump(4), Accumulate(3), Jump(-3), Accumulate(-99), Accumulate(1), NoOperation(-4), Accumulate(6)
  ]

  lemma Flip7UpToEight()
    ensures Reached(Flipped7, [0, 1, 2, 6, 7], 8, 2)
  {
    var t4: seq<nat> := [0, 1, 2, 6];
    SampleStart(Flipped7);
    SampleJumpAhead(Flipped7);
    Advance(Flipped7, t4, 7, 2, 8);
    assert t4 + [7] == [0, 1, 2, 6, 7];
  }

  lemma Flip7Run()
    ensures Reached(Flipped7, [0, 1, 2, 6, 7, 8], 9, 8)
  {
    var t5: seq<nat> := [0, 1, 2, 6, 7];
    Flip7UpToEight();
    Advance(Flipped7, t5, 8, 2, 9);
    assert t5 + [8] == [0, 1, 2, 6, 7, 8];
  }

  /** Flipping position 7 gives `nop -4`; the run leaves the stream with 8. */
  lemma SampleFlip7()
    ensures Behaves(Flipped7, Ok(EndOfStream(8)))
  {
    var t: seq<nat> := [0, 1, 2, 6, 7, 8];
    Flip7Run();
    assert Stops(Flipped7, t, Ok(EndOfStream(8)));
  }

  lemma Flip0Fails()
    ensures !Fixes(Sample, 0)
  {
    SampleFlip0();
    assert Candidate(Sample, 0) == Flipped0;
    AccumulateMatchesSemantics(Flipped0, Ok(RecursionInterrupt(0)));
  }

  lemma Flip2Fails()
    ensures !Fixes(Sample, 2)
  {
    SampleFlip2();
    assert Candidate(Sample, 2) == Flipped2;
    AccumulateMatchesSemantics(Flipped2, Ok(RecursionInterrupt(4)));
  }

  lemma Flip4Fails()
    ensures !Fixes(Sample, 4)
  {
    SampleFlip4();
    assert Candidate(Sample, 4) == Flipped4;
    AccumulateMatchesSemantics(Flipped4, Ok(RecursionInterrupt(-94)));
  }

  /** No flip before position 7 repairs the sample: 0, 2 and 4 loop, and
      the others are `acc`. */
  lemma SampleEarlyFlipsFail()
    ensures forall j :: 0 <= j < 7 ==> !Fixes(Sample, j)
  {
    Flip0Fails();
    Flip2Fails();
    Flip4Fails();
  }

  /** The repair of the sample is the `jmp -4` at 7, and the repaired run
      ends with 8. */
  lemma SampleGold()
    ensures Gold(Day08(Sample)) == Ok(8)
  {
    SampleEarlyFlipsFail();
    SampleFlip7();
    assert Candidate(Sample, 7) == Flipped7;
    AccumulateMatchesSemantics(Flipped7, Ok(EndOfStream(8)));
    assert FirstFix(Sample, 0, 7, 8);
    DiagnoseIsFirstFix(Sample, 7, 8);
  }
}
