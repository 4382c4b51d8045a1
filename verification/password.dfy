/** Day 2's password records: a policy (an amount range and a symbol) and
    the password it applies to, parsed from lines such as `1-3 a: abcde`.
    This is the parser of the `password` module, which checks that the range
    has exactly two endpoints. */
module Password {
  import opened Wrappers
  import opened Text

  /** Rust's `Range<usize>`, used here as an inclusive pair: no ordering
      between `start` and `end` is checked. */
  datatype Range = Range(start: nat, end: nat)

  datatype Policy = Policy(amountRange: Range, symbol: string)

  datatype Password = Password(policy: Policy, password: string)

  function RangeError(s: string): string {
    "Failed to pair string to range: " + s + "."
  }

  function LineError(line: string): string {
    "Unable to parse input line: " + line
  }

  /** `str_to_range`: the `-`-separated parts must all be unsigned integers
      and there must be exactly two of them. */
  function StrToRange(s: string): (r: Result<Range>)
    ensures r.Ok? <==> |SplitOn(s, "-")| == 2 && AllUnsigned(SplitOn(s, "-"))
    ensures r.Ok? ==> (ParseUnsigned(SplitOn(s, "-")[0]) == Some(r.value.start)
                    && ParseUnsigned(SplitOn(s, "-")[1]) == Some(r.value.end))
    ensures r.Err? ==> r.error == RangeError(s)
  {
    match ParseAll(SplitOn(s, "-"))
    case None => Err(RangeError(s))
    case Some(endpoints) =>
      if |endpoints| != 2 then Err(RangeError(s))
      else Ok(Range(endpoints[0], endpoints[1]))
  }

  /** `String::pop` followed by discarding the popped character. */
  function DropLast(s: string): (r: string)
    ensures |s| > 0 ==> r + [s[|s| - 1]] == s
    ensures |s| == 0 ==> r == s
  {
    if |s| == 0 then s else s[..|s| - 1]
  }

  /** `Password::new`: three whitespace-separated segments, the range, the
      symbol with its trailing character (the `:`) removed, and the password
      taken verbatim. */
  function New(line: string): (r: Result<Password>)
    ensures r.Ok? <==> |SplitWhitespace(line)| == 3 && StrToRange(SplitWhitespace(line)[0]).Ok?
    ensures r.Ok? ==> r.value.policy.amountRange == StrToRange(SplitWhitespace(line)[0]).value
    ensures r.Ok? ==> r.value.policy.symbol + [SplitWhitespace(line)[1][|SplitWhitespace(line)[1]| - 1]]
                      == SplitWhitespace(line)[1]
    ensures r.Ok? ==> r.value.password == SplitWhitespace(line)[2]
    ensures |SplitWhitespace(line)| != 3 ==> r == Err(LineError(line))
  {
    var segments := SplitWhitespace(line);
    if |segments| != 3 then Err(LineError(line))
    else
      var amountRange :- StrToRange(segments[0]);
      assert IsWord(segments[1]);
      Ok(Password(Policy(amountRange, DropLast(segments[1])), segments[2]))
  }

  // ---------------------------------------------------------------------------
  // Rendering, the parser's inverse
  // ---------------------------------------------------------------------------

  function ShowRange(r: Range): string {
    NatToString(r.start) + "-" + NatToString(r.end)
  }

  /** A password as an input line, `<start>-<end> <symbol>: <password>`. */
  function Show(p: Password): string {
    JoinSpaced([ShowRange(p.policy.amountRange), p.policy.symbol + ":", p.password])
  }

  /** A symbol and a password can be written on one line when neither holds
      whitespace and the password is not empty. */
  predicate Printable(p: Password) {
    && (forall i :: 0 <= i < |p.policy.symbol| ==> !IsWhitespace(p.policy.symbol[i]))
    && IsWord(p.password)
  }

  lemma DigitsHaveNoDash(n: nat)
    ensures '-' !in NatToString(n)
    ensures IsWord(NatToString(n))
  {
    var s := NatToString(n);
    assert forall i :: 0 <= i < |s| ==> IsDigit(s[i]);
  }

  /** A rendered range parses back to itself. */
  lemma StrToRangeShow(r: Range)
    ensures StrToRange(ShowRange(r)) == Ok(r)
  {
    var a := NatToString(r.start);
    var b := NatToString(r.end);
    DigitsHaveNoDash(r.start);
    DigitsHaveNoDash(r.end);
    assert ShowRange(r) == Join([a, b], "-");
    SplitOnJoin([a, b], '-');
    ParseUnsignedRoundTrip(r.start);
    ParseUnsignedRoundTrip(r.end);
  }

  /** A rendered range is one word. */
  lemma RangeIsWord(r: Range)
    ensures IsWord(ShowRange(r))
  {
    var a := NatToString(r.start);
    var b := NatToString(r.end);
    var range := ShowRange(r);
    DigitsHaveNoDash(r.start);
    DigitsHaveNoDash(r.end);
    assert range == a + ("-" + b);
    assert range[0] == a[0];
    forall i | 0 <= i < |range|
      ensures !IsWhitespace(range[i])
    {
      assert range[i] in a || range[i] == '-' || range[i] in b;
    }
  }

  /** A whitespace-free symbol followed by its colon is one word. */
  lemma SymbolIsWord(symbol: string)
    requires forall i :: 0 <= i < |symbol| ==> !IsWhitespace(symbol[i])
    ensures IsWord(symbol + ":")
    ensures DropLast(symbol + ":") == symbol
  {
    var sym := symbol + ":";
    forall i | 0 <= i < |sym|
      ensures !IsWhitespace(sym[i])
    {
      if i < |symbol| {
        assert sym[i] == symbol[i];
      }
    }
  }

  /** The three segments of a printable password's line. */
  lemma ShowSegments(p: Password)
    requires Printable(p)
    ensures SplitWhitespace(Show(p)) == [ShowRange(p.policy.amountRange), p.policy.symbol + ":", p.password]
    ensures |Show(p)| > 0 && '\n' !in Show(p) && Show(p)[|Show(p)| - 1] != '\r'
  {
    var words := [ShowRange(p.policy.amountRange), p.policy.symbol + ":", p.password];
    RangeIsWord(p.policy.amountRange);
    SymbolIsWord(p.policy.symbol);
    SplitWhitespaceOfJoinSpaced(words);
    JoinSpacedShape(words);
    assert IsWhitespace('\n') && IsWhitespace('\r');
  }

  /** Every printable password parses back from its rendering. */
  lemma NewShow(p: Password)
    requires Printable(p)
    ensures New(Show(p)) == Ok(p)
    ensures |SplitOn(SplitWhitespace(Show(p))[0], "-")| == 2
    ensures |Show(p)| > 0 && '\n' !in Show(p) && Show(p)[|Show(p)| - 1] != '\r'
  {
    ShowSegments(p);
    SymbolIsWord(p.policy.symbol);
    StrToRangeShow(p.policy.amountRange);
    var r := New(Show(p));
    assert r.Ok?;
    assert r.value.policy.symbol == DropLast(p.policy.symbol + ":");
  }

  /** The range parser rejects a third endpoint. */
  lemma ThreeEndpointsRejected(x: nat, y: nat, z: nat)
    ensures StrToRange(NatToString(x) + "-" + NatToString(y) + "-" + NatToString(z)).Err?
  {
    var a := NatToString(x);
    var b := NatToString(y);
    var c := NatToString(z);
    DigitsHaveNoDash(x);
    DigitsHaveNoDash(y);
    DigitsHaveNoDash(z);
    JoinThree(a, b, c, "-");
    ThreePartsRejected(a, b, c);
  }

  /** Three dash-free parts joined by dashes are rejected. */
  lemma ThreePartsRejected(a: string, b: string, c: string)
    requires '-' !in a && '-' !in b && '-' !in c
    ensures StrToRange(Join([a, b, c], "-")).Err?
  {
    SplitOnJoin([a, b, c], '-');
    TwoEndpointsOnly(Join([a, b, c], "-"));
  }

  /** Anything but two parts is rejected. */
  lemma TwoEndpointsOnly(s: string)
    requires |SplitOn(s, "-")| != 2
    ensures StrToRange(s).Err?
  {
  }

  lemma JoinThree(a: string, b: string, c: string, d: string)
    ensures Join([a, b, c], d) == a + d + b + d + c
  {
    assert [a, b, c][1..] == [b, c];
    assert [b, c][1..] == [c];
    assert Join([b, c], d) == b + d + c;
    assert Join([a, b, c], d) == a + d + (b + d + c);
  }
}
