/** Day 2: the puzzle's own line parser (with a range parser that does not
    count the endpoints) and the two password policies. */
module Day02 {
  import opened Wrappers
  import opened Text
  import opened Seqs
  import P = Password

  datatype Day02 = Day02(passwords: seq<P.Password>)

  // ---------------------------------------------------------------------------
  // Parsing
  // ---------------------------------------------------------------------------

  /** This module's `str_to_range` indexes the first two parsed endpoints
      without checking how many there are: a single number panics. */
  predicate RangePanics(s: string) {
    AllUnsigned(SplitOn(s, "-")) && |SplitOn(s, "-")| < 2
  }

  /** This module's `str_to_range`: every `-`-separated part must be an
      unsigned integer; the first two are the endpoints and any further ones
      are ignored. */
  function StrToRange(s: string): (r: Result<P.Range>)
    requires !RangePanics(s)
    ensures r.Ok? <==> AllUnsigned(SplitOn(s, "-"))
    ensures r.Ok? ==> (ParseUnsigned(SplitOn(s, "-")[0]) == Some(r.value.start)
                    && ParseUnsigned(SplitOn(s, "-")[1]) == Some(r.value.end))
    ensures r.Err? ==> r.error == P.RangeError(s)
  {
    match ParseAll(SplitOn(s, "-"))
    case None => Err(P.RangeError(s))
    case Some(endpoints) => Ok(P.Range(endpoints[0], endpoints[1]))
  }

  /** With at most two parts the two range parsers agree. */
  lemma StrToRangeAgrees(s: string)
    requires !RangePanics(s) && |SplitOn(s, "-")| <= 2
    ensures StrToRange(s) == P.StrToRange(s)
  {
  }

  /** With three endpoints this parser keeps the first two, where the
      `password` module's parser reports an error. */
  lemma ExtraEndpointIgnored(x: nat, y: nat, z: nat)
    ensures var s := NatToString(x) + "-" + NatToString(y) + "-" + NatToString(z);
            !RangePanics(s) && StrToRange(s) == Ok(P.Range(x, y)) && P.StrToRange(s).Err?
  {
    var a := NatToString(x);
    var b := NatToString(y);
    var c := NatToString(z);
    P.DigitsHaveNoDash(x);
    P.DigitsHaveNoDash(y);
    P.DigitsHaveNoDash(z);
    P.JoinThree(a, b, c, "-");
    SplitOnJoin([a, b, c], '-');
    ParseUnsignedRoundTrip(x);
    ParseUnsignedRoundTrip(y);
    ParseUnsignedRoundTrip(z);
    P.ThreeEndpointsRejected(x, y, z);
  }

  /** A line with three segments whose range would panic. */
  predicate LinePanics(line: string) {
    |SplitWhitespace(line)| == 3 && RangePanics(SplitWhitespace(line)[0])
  }

  /** The body of the parsing loop for one line. */
  function ParseLine(line: string): (r: Result<P.Password>)
    requires !LinePanics(line)
    ensures r.Ok? <==> |SplitWhitespace(line)| == 3 && AllUnsigned(SplitOn(SplitWhitespace(line)[0], "-"))
    ensures |SplitWhitespace(line)| != 3 ==> r == Err(P.LineError(line))
    ensures |SplitWhitespace(line)| == 3 && r.Err? ==> r.error == P.RangeError(SplitWhitespace(line)[0])
    ensures r.Ok? ==> r.value.policy.amountRange == StrToRange(SplitWhitespace(line)[0]).value
    ensures r.Ok? ==> r.value.policy.symbol == P.DropLast(SplitWhitespace(line)[1])
    ensures r.Ok? ==> r.value.password == SplitWhitespace(line)[2]
  {
    var segments := SplitWhitespace(line);
    if |segments| != 3 then Err(P.LineError(line))
    else
      var amountRange :- StrToRange(segments[0]);
      Ok(P.Password(P.Policy(amountRange, P.DropLast(segments[1])), segments[2]))
  }

  /** Where the range has at most two parts the loop body is
      `Password::new` of the `password` module. */
  lemma ParseLineAgrees(line: string)
    requires !LinePanics(line)
    requires |SplitWhitespace(line)| == 3 ==> |SplitOn(SplitWhitespace(line)[0], "-")| <= 2
    ensures ParseLine(line) == P.New(line)
  {
    var segments := SplitWhitespace(line);
    if |segments| == 3 {
      StrToRangeAgrees(segments[0]);
    }
  }

  /** No line panics before the loop stops: each line is panic-free, and
      the loop goes on past it only when it parses. */
  ghost predicate NoPanic(lines: seq<string>) {
    Reaches(lines, ParseLine)
  }

  /** `Day02::new`: one password per line of the input, stopping at the
      first line that does not parse with its error. */
  function New(data: string): (r: Result<Day02>)
    requires NoPanic(Lines(data))
    ensures r.Ok? <==> forall i :: 0 <= i < |Lines(data)| ==> !LinePanics(Lines(data)[i]) && ParseLine(Lines(data)[i]).Ok?
    ensures r.Ok? ==> |r.value.passwords| == |Lines(data)|
    ensures r.Ok? ==> forall i :: 0 <= i < |Lines(data)| ==>
                        !LinePanics(Lines(data)[i]) && ParseLine(Lines(data)[i]) == Ok(r.value.passwords[i])
    ensures r.Err? ==> exists i :: 0 <= i < |Lines(data)| && !LinePanics(Lines(data)[i])
                                && ParseLine(Lines(data)[i]) == Err(r.error)
                                && forall j :: 0 <= j < i ==> !LinePanics(Lines(data)[j]) && ParseLine(Lines(data)[j]).Ok?
  {
    match MapUntilErr(Lines(data), ParseLine)
    case Ok(ps) => Ok(Day02(ps))
    case Err(e) =>
      MapUntilErrFails(Lines(data), ParseLine);
      Err(e)
  }

  /** One rendered line per password, in order. */
  function ShowLines(ps: seq<P.Password>): (lines: seq<string>)
    ensures |lines| == |ps|
  {
    seq(|ps|, i requires 0 <= i < |ps| => P.Show(ps[i]))
  }

  /** The passwords as puzzle input, one rendered line each. */
  function Show(day: Day02): string {
    Join(ShowLines(day.passwords), "\n")
  }

  /** Each rendered line is a single, non-empty line that parses back to
      its password. */
  lemma ShowLinesParse(ps: seq<P.Password>)
    requires forall i :: 0 <= i < |ps| ==> P.Printable(ps[i])
    ensures var lines := ShowLines(ps);
            forall i :: 0 <= i < |lines| ==>
              |lines[i]| > 0 && '\n' !in lines[i] && StripCarriageReturn(lines[i]) == lines[i]
    ensures var lines := ShowLines(ps);
            forall i :: 0 <= i < |lines| ==> !LinePanics(lines[i]) && ParseLine(lines[i]) == Ok(ps[i])
  {
    var lines := ShowLines(ps);
    forall i | 0 <= i < |lines|
      ensures |lines[i]| > 0 && '\n' !in lines[i] && StripCarriageReturn(lines[i]) == lines[i]
      ensures !LinePanics(lines[i]) && ParseLine(lines[i]) == Ok(ps[i])
    {
      P.NewShow(ps[i]);
      ParseLineAgrees(lines[i]);
    }
  }

  /** Parsing the rendering of a non-empty list of printable passwords
      neither panics nor fails, and gives the list back. */
  lemma NewShowRoundTrip(day: Day02)
    requires |day.passwords| > 0
    requires forall i :: 0 <= i < |day.passwords| ==> P.Printable(day.passwords[i])
    ensures NoPanic(Lines(Show(day))) && New(Show(day)) == Ok(day)
  {
    var lines := ShowLines(day.passwords);
    ShowLinesParse(day.passwords);
    LinesOfJoin(lines);
    ParseLinesAll(lines, day.passwords);
  }

  lemma ParseLinesAll(lines: seq<string>, ps: seq<P.Password>)
    requires |lines| == |ps|
    requires forall i :: 0 <= i < |lines| ==> !LinePanics(lines[i]) && ParseLine(lines[i]) == Ok(ps[i])
    ensures NoPanic(lines) && MapUntilErr(lines, ParseLine) == Ok(ps)
  {
    MapUntilErrAll(lines, ParseLine, ps);
  }

  // ---------------------------------------------------------------------------
  // Silver: the number of symbol occurrences lies in the range
  // ---------------------------------------------------------------------------

  predicate SilverValid(p: P.Password) {
    p.policy.amountRange.start <= MatchCount(p.password, p.policy.symbol) <= p.policy.amountRange.end
  }

  /** For a one-character symbol the silver rule counts the character's
      occurrences, both ends of the range included. */
  lemma SilverValidChar(p: P.Password, c: char)
    requires p.policy.symbol == [c]
    ensures SilverValid(p) <==> p.policy.amountRange.start <= multiset(p.password)[c] <= p.policy.amountRange.end
  {
    MatchCountChar(p.password, c);
  }

  /** `attempt_silver`: the number of passwords the silver rule accepts. */
  function Silver(day: Day02): (r: Result<nat>)
    ensures r.Ok? && r.value <= |day.passwords|
    ensures r.value == |Where(day.passwords, SilverValid, |day.passwords|)|
    ensures r.value == |day.passwords| <==> forall i :: 0 <= i < |day.passwords| ==> SilverValid(day.passwords[i])
    ensures r.value == 0 <==> forall i :: 0 <= i < |day.passwords| ==> !SilverValid(day.passwords[i])
  {
    CountIsWhere(day.passwords, SilverValid);
    Ok(Count(day.passwords, SilverValid))
  }

  // ---------------------------------------------------------------------------
  // Gold: exactly one of two positions holds the symbol
  // ---------------------------------------------------------------------------

  /** Both 1-based positions lie inside the password; the indexing panics
      otherwise. */
  predicate GoldIndexable(p: P.Password) {
    && 1 <= p.policy.amountRange.start <= |p.password|
    && 1 <= p.policy.amountRange.end <= |p.password|
  }

  /** The character at the 1-based position `k`, as a one-character string,
      is the symbol. */
  predicate Hit(p: P.Password, k: nat)
    requires 1 <= k <= |p.password|
  {
    [p.password[k - 1]] == p.policy.symbol
  }

  predicate GoldValid(p: P.Password)
    requires GoldIndexable(p)
  {
    var first := Hit(p, p.policy.amountRange.start);
    var second := Hit(p, p.policy.amountRange.end);
    (first && !second) || (!first && second)
  }

  /** The gold rule, on a password whose positions can be indexed. */
  predicate GoldAccepts(p: P.Password) {
    GoldIndexable(p) && GoldValid(p)
  }

  /** The gold rule holds iff exactly one of the two positions, counted as
      a list, holds the symbol; the same position twice never passes. */
  lemma GoldValidIffOneHit(p: P.Password)
    requires GoldIndexable(p)
    ensures GoldValid(p) <==> Count([p.policy.amountRange.start, p.policy.amountRange.end],
                                    (k: nat) => 1 <= k <= |p.password| && Hit(p, k)) == 1
    ensures p.policy.amountRange.start == p.policy.amountRange.end ==> !GoldValid(p)
  {
    var ks := [p.policy.amountRange.start, p.policy.amountRange.end];
    var f := (k: nat) => 1 <= k <= |p.password| && Hit(p, k);
    assert ks[1..] == [p.policy.amountRange.end];
    assert Count(ks, f) == (if f(ks[0]) then 1 else 0) + Count(ks[1..], f);
  }

  /** A symbol that is not one character long never passes the gold rule. */
  lemma GoldNeedsOneCharSymbol(p: P.Password)
    requires GoldIndexable(p) && |p.policy.symbol| != 1
    ensures !GoldValid(p)
  {
  }

  /** `attempt_gold`: the number of passwords the gold rule accepts. */
  function Gold(day: Day02): (r: Result<nat>)
    requires forall i :: 0 <= i < |day.passwords| ==> GoldIndexable(day.passwords[i])
    ensures r.Ok? && r.value <= |day.passwords|
    ensures r.value == |Where(day.passwords, GoldAccepts, |day.passwords|)|
    ensures r.value == |day.passwords| <==> forall i :: 0 <= i < |day.passwords| ==> GoldValid(day.passwords[i])
    ensures r.value == 0 <==> forall i :: 0 <= i < |day.passwords| ==> !GoldValid(day.passwords[i])
  {
    CountIsWhere(day.passwords, GoldAccepts);
    Ok(Count(day.passwords, GoldAccepts))
  }

  // ---------------------------------------------------------------------------
  // The sample
  // ---------------------------------------------------------------------------

  const Sample: seq<P.Password> := [
    P.Password(P.Policy(P.Range(1, 3), "a"), "abcde"),
    P.Password(P.Policy(P.Range(1, 3), "b"), "cdefg"),
    P.Password(P.Policy(P.Range(2, 9), "c"), "ccccccccc")
  ]

  lemma SampleSilver0()
    ensures SilverValid(Sample[0])
  {
    SilverValidChar(Sample[0], 'a');
    assert multiset(Sample[0].password)['a'] == 1;
  }

  lemma SampleSilver1()
    ensures !SilverValid(Sample[1])
  {
    SilverValidChar(Sample[1], 'b');
    assert multiset(Sample[1].password)['b'] == 0;
  }

  /** A password made of one character repeated holds it that many times. */
  lemma {:induction false} RepeatedCount(s: string, c: char)
    requires forall i :: 0 <= i < |s| ==> s[i] == c
    ensures multiset(s)[c] == |s|
    decreases |s|
  {
    if |s| > 0 {
      RepeatedCount(s[1..], c);
      assert s == [s[0]] + s[1..];
    }
  }

  /** A password that is its one-character symbol repeated a number of
      times within the range passes the silver rule. */
  lemma RepeatedSilverValid(p: P.Password, c: char)
    requires p.policy.symbol == [c]
    requires forall i :: 0 <= i < |p.password| ==> p.password[i] == c
    requires p.policy.amountRange.start <= |p.password| <= p.policy.amountRange.end
    ensures SilverValid(p)
  {
    SilverValidChar(p, c);
    RepeatedCount(p.password, c);
  }

  lemma SampleSilver2()
    ensures SilverValid(Sample[2])
  {
    RepeatedSilverValid(Sample[2], 'c');
  }

  lemma SampleSilverRule()
    ensures SilverValid(Sample[0]) && !SilverValid(Sample[1]) && SilverValid(Sample[2])
  {
    SampleSilver0();
    SampleSilver1();
    SampleSilver2();
  }

  /** Two sample passwords pass the silver rule. */
  lemma SampleSilver()
    ensures Silver(Day02(Sample)) == Ok(2)
  {
    SampleSilverRule();
    CountThree(Sample, SilverValid);
  }

  /** One sample password passes the gold rule. */
  lemma SampleGold()
    ensures Gold(Day02(Sample)) == Ok(1)
  {
    var valid := (p: P.Password) => GoldIndexable(p) && GoldValid(p);
    assert valid(Sample[0]) && !valid(Sample[1]) && !valid(Sample[2]);
    CountThree(Sample, valid);
  }

  /** The lines of the example input. */
  const SampleLines: seq<string> := ["1-3 a: abcde", "1-3 b: cdefg", "2-9 c: ccccccccc"]

  /** The example input: its lines joined with newlines, and no newline
      after the last. */
  const SampleText: string := Join(SampleLines, "\n")

  /** A password renders as `line` when its range does. */
  lemma ShowPasswordLine(p: P.Password, range: string, line: string)
    requires P.ShowRange(p.policy.amountRange) == range
    requires range + " " + p.policy.symbol + ": " + p.password == line
    ensures P.Show(p) == line
  {
    var words := [range, p.policy.symbol + ":", p.password];
    assert words[1..][1..] == [p.password];
    assert JoinSpaced(words[1..]) == p.policy.symbol + ":" + " " + p.password;
    assert JoinSpaced(words) == range + " " + (p.policy.symbol + ":" + " " + p.password);
  }

  /** The ranges of the example passwords as they are written. */
  lemma SampleRanges()
    ensures P.ShowRange(P.Range(1, 3)) == "1-3" && P.ShowRange(P.Range(2, 9)) == "2-9"
  {
  }

  /** The example passwords render line by line as the example input. */
  lemma SampleShowLines()
    ensures ShowLines(Sample) == SampleLines
  {
    SampleRanges();
    ShowPasswordLine(Sample[0], "1-3", "1-3 a: abcde");
    ShowPasswordLine(Sample[1], "1-3", "1-3 b: cdefg");
    ShowPasswordLine(Sample[2], "2-9", "2-9 c: ccccccccc");
  }

  /** The example input reads as the example passwords, without a panic. */
  lemma SampleParses()
    ensures NoPanic(Lines(SampleText)) && New(SampleText) == Ok(Day02(Sample))
  {
    SampleShowLines();
    assert forall i :: 0 <= i < |Sample| ==> P.Printable(Sample[i]);
    NewShowRoundTrip(Day02(Sample));
  }
}
