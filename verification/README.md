# Advent of Code 2020 puzzle cores, modelled in Dafny

This project models the puzzle logic of a Rust Advent of Code 2020
repository. It states and proves properties of each part:

- **Day 8, the handheld console.** `Tokens` holds the instruction interpreter.
  A stream of `nop`/`jmp`/`acc` tokens runs until the cursor lands exactly on
  the end (`EndOfStream`) or is about to re-execute a position
  (`RecursionInterrupt`). A jump is bounds-checked. The repair search flips
  one `jmp`/`nop` at a time, lowest position first. `Day08` holds the line
  parser and the two answers.
- **Day 2, password policies.** `Password` holds `Password::new` and its
  strict range parser. `Day02` holds the puzzle's own line loop, which has a
  laxer range parser, and the silver (occurrence count in range) and gold
  (exactly one of two positions) rules.
- **Day 4, passports.** `Passports` covers the loose record read from
  `key:value` pairs, the required-field test, and the strict conversion with
  its per-field validators.
- **Day 9, the XMAS cipher.** `Day09` covers the pair-sum window test, the
  scan for runs of invalid values, and the contiguous-range search.
- **Day 1, the expense report.** `Day01` covers the sorted and reversed
  copies of the input and the pair and triple searches for 2020.
- **Day 6, customs declarations.** `Questionaire` covers the letter-to-slot
  map, one questionnaire per word, and the any-yes and all-yes counts.
  `Day06` covers the groups cut at blank lines and the two totals.
- **Day 7, luggage rules.** `Bags` covers the transitive container search
  (`find_parents`, `silver_find`) and the nested bag count (`gold_find`),
  over an already-parsed rule map.
- **The runner's log level.** `Logger` covers its printed name and the
  parser that reads it back.

The shared modules model the pieces of the standard library the parsers
rely on:

- `Wrappers`: `Option`, `Result`, and a loop that parses items until the
  first error.
- `Text`: `split`, `split_whitespace`, `lines`, `matches` and integer
  parsing.
- `Seqs`: counting, summing, minimum, maximum and last-match search.

Every operation has a partner: a reference definition it is proved equal
to, an inverse it round-trips with, or an invariant it keeps. Three examples:

- The interpreter `Run` is proved to produce exactly the run described by
  the trace semantics `IsTrace`/`Stops`.
- The day 2 and day 8 input readers, `Password::new`, the range parser
  and the log-level parser are proved to read back their rendering. The
  other readers (days 1, 4, 6 and 9) are proved equal to reference
  definitions over the words or chunks of the input.
- `find_parents` is proved to add exactly the colours that eventually hold
  the target, and so does not depend on the order in which the map's
  entries are visited.

Behaviours of the code that the model keeps as written:

- Day 2's own `str_to_range` (`challenges/src/day02/mod.rs`) does not count
  the endpoints. It ignores a third endpoint (`Day02.ExtraEndpointIgnored`)
  and indexes past a single one, which panics. `Password.StrToRange`
  rejects both.
- The day 1 silver search may pair an entry with itself: a report holding
  only 1010 has the answer 1010 × 1010 (`Day01.SelfPairing`).
- On day 6, an empty chunk (for instance after a trailing blank line) is a
  group with nobody in it. It counts 0 towards silver and 26 towards gold
  (`Day06.EmptyGroupCounts`).
- A day 8 input with a trailing newline fails to parse, because its last
  line is empty (`Day08.TrailingNewlineFails`).

## Model

| member | source | states |
|---|---|---|
| Tokens.MoveCursor | challenges/src/day08/tokens.rs:88-106 | the jump succeeds exactly when the target lies in `0..=len`, and lands on `cursor + distance`; a target below 0 is the before-start error and one past `len` the after-end error |
| Tokens.Run | challenges/src/day08/tokens.rs:35-59 | the loop only ever records distinct positions below `len`, so it stops after at most `len` executed tokens, and it only extends the tracker it started with |
| Tokens.AccumulateUntilTokensRepeat | challenges/src/day08/tokens.rs:31-60 | an empty stream ends at once with `EndOfStream(0)` |
| Tokens.RunFollowsTrace | challenges/src/day08/tokens.rs:35-59 | from any state reached by executing a trace, the loop's recorded positions form a trace of the stream, and the loop's outcome is how that trace stops |
| Tokens.TracesArePrefixes | challenges/src/day08/tokens.rs:45-58 | execution is deterministic: of two traces of a stream, the shorter is a prefix of the longer |
| Tokens.StoppingRunIsUnique | challenges/src/day08/tokens.rs:36-43 | a stream has exactly one stopping run: any two traces that stop are equal and stop the same way |
| Tokens.AccumulateMatchesSemantics | challenges/src/day08/tokens.rs:31-60 | the interpreter returns `outcome` if and only if the stream has a run ending with `outcome`; the end is reached only with the cursor exactly at `len`, a repeat is reported before the repeated token runs again, and the accumulator is the sum of the executed `acc` operands |
| Tokens.RunIsBounded | challenges/src/day08/tokens.rs:37-45 | a run executes at most `len` tokens, all at positions below `len` |
| Tokens.NoAccumulateMeansZero | challenges/src/day08/tokens.rs:47-58 | only `acc` changes the accumulator: a stream without `acc` ends with accumulator 0 whenever it ends without error |
| Tokens.FirstJumpBounds | challenges/src/day08/tokens.rs:93-103 | a first `jmp` to exactly `len` ends the stream normally with 0; one past `len` is the after-end error, and one below 0 the before-start error |
| Tokens.DistinctBelowBound | challenges/src/day08/tokens.rs:41-45 | distinct positions below `len` number at most `len`, which is why the loop terminates |
| Tokens.Flip | challenges/src/day08/tokens.rs:65-81 | a flip keeps the operand, leaves `acc` as it is, and swaps `jmp` and `nop` |
| Tokens.FlipIsInvolution | challenges/src/day08/tokens.rs:66-81 | flipping twice gives back the original token |
| Tokens.Candidate | challenges/src/day08/tokens.rs:67-68 | the trial stream differs from the original only at the flipped position, so the original is never changed |
| Tokens.DiagnoseFrom | challenges/src/day08/tokens.rs:63-85 | the search from a position on returns the accumulator of the first fixing flip at or after it; it returns the error only when no flip from there fixes the stream |
| Tokens.DiagnoseBadToken | challenges/src/day08/tokens.rs:62-86 | the search succeeds exactly when some `jmp`/`nop` flip makes the stream end normally, and then returns the final accumulator of the lowest such flip; cycles and jump errors on a trial are skipped |
| Tokens.DiagnoseIsFirstFix | challenges/src/day08/tokens.rs:62-86 | whenever a lowest fixing flip exists, the search returns exactly its final accumulator |
| Day08.ParseLine | challenges/src/day08/mod.rs:19-29 | a line is accepted exactly when it has two words, the first `nop`, `jmp` or `acc` and the second a signed integer; the token kind follows the opcode and the operand is the parsed integer |
| Day08.New | challenges/src/day08/mod.rs:14-33 | the input is split on `"\n"`; it parses exactly when every line does; then there is one token per line, in order; otherwise the error is that of the first failing line, every line before it parsing |
| Day08.TrailingNewlineFails | challenges/src/day08/mod.rs:16-22 | an input that ends in a newline is always rejected, because its empty last line has no words |
| Day08.ParseShowToken | challenges/src/day08/mod.rs:24-29 | each token rendered as `<op> <signed operand>` parses back to itself |
| Day08.NewShowRoundTrip | challenges/src/day08/mod.rs:14-33 | parsing the rendering of any non-empty stream gives that stream back |
| Day08.ParseFailsFirst | challenges/src/day08/mod.rs:18-32 | a failed read stops at the first line that fails, and reports its error |
| Day08.SampleParses | challenges/src/day08/tests.rs:4-18 | the example program's text reads as the nine example tokens |
| Day08.Silver | challenges/src/day08/mod.rs:39-47 | silver is `Ok(a)` exactly when the stream's run is interrupted by a repeat with accumulator `a`; normal termination and jump errors give the error |
| Day08.Gold | challenges/src/day08/mod.rs:55-60 | gold succeeds exactly when some flip repairs the stream, and then gives the accumulator of the lowest repairing flip |
| Day08.SampleSilver | challenges/src/day08/tests.rs:4-33 | on the example program silver is 5 |
| Day08.SampleEarlyFlipsFail | challenges/src/day08/tests.rs:4-12 | on the example program no flip before position 7 makes it end normally |
| Day08.SampleFlip7 | challenges/src/day08/tests.rs:4-12 | flipping the `jmp -4` at position 7 of the example program makes it end normally with accumulator 8 |
| Day08.SampleGold | challenges/src/day08/tests.rs:4-49 | on the example program gold is 8 |
| Password.StrToRange | challenges/src/day02/password.rs:40-58 | the range parses exactly when the `-`-separated parts are exactly two unsigned integers; start and end are the first and second, with no order check |
| Password.DropLast | challenges/src/day02/password.rs:24-28 | `pop` removes exactly the last character, and leaves an empty string empty |
| Password.New | challenges/src/day02/password.rs:16-37 | a line parses exactly when it has three whitespace segments and a valid range; the symbol is the second segment less its last character, and the password is the third segment as is; another segment count is the line error |
| Password.StrToRangeShow | challenges/src/day02/password.rs:40-58 | a rendered `start-end` parses back to the same range |
| Password.NewShow | challenges/src/day02/password.rs:16-37 | a password whose symbol and text hold no whitespace parses back from its rendered line |
| Password.ThreeEndpointsRejected | challenges/src/day02/password.rs:50-52 | a range with three numeric endpoints is rejected |
| Password.TwoEndpointsOnly | challenges/src/day02/password.rs:50-52 | any string that does not split into two parts on `-` is rejected |
| Day02.StrToRange | challenges/src/day02/mod.rs:24-39 | this parser succeeds exactly when every part is an unsigned integer, with start and end the first two parts; its callers must supply at least two parts |
| Day02.StrToRangeAgrees | challenges/src/day02/mod.rs:24-39 | on at most two parts it agrees with the strict parser of `password.rs` |
| Day02.ExtraEndpointIgnored | challenges/src/day02/mod.rs:32-37 | on three numeric endpoints it returns the first two, where the strict parser rejects the string |
| Day02.ParseLine | challenges/src/day02/mod.rs:47-66 | a line is accepted exactly when it has three segments and an all-numeric range; the range is read from the first segment, the symbol is the second less its last character, and the password is the third; a bad range on a three-segment line is the range error for the first segment; another segment count is the line error |
| Day02.ParseLineAgrees | challenges/src/day02/mod.rs:47-66 | where the range has at most two parts, the loop body is `Password::new` |
| Day02.New | challenges/src/day02/mod.rs:42-70 | the input parses exactly when every line does; then there is one password per line, in order; otherwise the error is that of the first failing line, every line before it parsing |
| Day02.NewShowRoundTrip | challenges/src/day02/mod.rs:42-70 | parsing the rendering of any non-empty list of printable passwords gives the list back |
| Day02.SilverValidChar | challenges/src/day02/mod.rs:173-180 | for a one-character symbol, silver accepts exactly when the symbol's occurrences lie between start and end, both included |
| Day02.Silver | challenges/src/day02/mod.rs:165-186 | silver is the number of positions whose password passes the silver rule |
| Day02.GoldValidIffOneHit | challenges/src/day02/mod.rs:233-241 | gold accepts exactly when one of the two 1-based positions holds the symbol; the same position twice never passes |
| Day02.GoldNeedsOneCharSymbol | challenges/src/day02/mod.rs:234-241 | a symbol that is not one character long never passes gold |
| Day02.Gold | challenges/src/day02/mod.rs:225-247 | gold is the number of positions whose password passes the gold rule |
| Day02.SampleSilverRule | challenges/src/day02/mod.rs:189-211 | of the three sample passwords, the first and third pass silver and the second does not |
| Day02.RepeatedSilverValid | challenges/src/day02/mod.rs:173-180 | a password made only of its one-character symbol, repeated a number of times within the range, passes silver |
| Day02.SampleSilver | challenges/src/day02/mod.rs:213-219 | silver counts 2 valid passwords among the three sample passwords |
| Day02.SampleGold | challenges/src/day02/mod.rs:274-280 | gold counts 1 valid password among the three sample passwords |
| Day02.SampleParses | challenges/src/day02/mod.rs:213-216 | the sample text reads, without a panic, as the three sample passwords |
| Passports.With | challenges/src/day04/passports.rs:49-57 | setting a key's field changes that field and no other |
| Passports.SplitPairOneColon | challenges/src/day04/passports.rs:43-47 | a token is a pair exactly when it holds one `:`, and then the key and value are the text before and after it |
| Passports.AddPairs | challenges/src/day04/passports.rs:42-62 | reading succeeds exactly when every token is a known key, a `:` and a value |
| Passports.AddPairsFails | challenges/src/day04/passports.rs:44-58 | a failed read reports the error of the first rejected token: the separator error or the unknown-key error |
| Passports.AddPairsFields | challenges/src/day04/passports.rs:49-59 | after a read each field holds the value of the last pair with its key, or the starting value when there is none |
| Passports.NewBasic | challenges/src/day04/passports.rs:28-63 | a passport reads exactly when every whitespace token is a known pair; each field is then the value of the last pair naming its key; otherwise the error is that of the first rejected token |
| Passports.LastValueIsLast | challenges/src/day04/passports.rs:49-59 | a key's kept value is that of a pair with the key after which no pair has it, so a repeated key keeps its last value |
| Passports.LastValueNone | challenges/src/day04/passports.rs:49-59 | a field stays empty exactly when no pair names its key |
| Passports.RequiredFieldsIffKeysPresent | challenges/src/day04/passports.rs:65-73 | a read passport has the required fields exactly when each of the seven keys other than `cid` appears among its tokens |
| Passports.CheckYear | challenges/src/day04/passports.rs:103-125 | a year field survives exactly when it parses as an unsigned integer within the bounds, and keeps the parsed value |
| Passports.CheckYearShow | challenges/src/day04/passports.rs:103-125 | a year written in decimal survives exactly when it lies within the bounds, and is then that year |
| Passports.CheckHeight | challenges/src/day04/passports.rs:127-168 | a height survives exactly when it ends in `cm` or `in`, the text before parses, and the number lies within the unit's bounds |
| Passports.CheckHeightShow | challenges/src/day04/passports.rs:141-166 | a measurement within 150–193 cm or 59–76 in reads back from its rendering; one outside does not |
| Passports.CheckHairColour | challenges/src/day04/passports.rs:170-200 | the flag-clearing loop accepts exactly `#` followed by six hexadecimal digits of either case |
| Passports.Strict | challenges/src/day04/passports.rs:100-237 | each field of the strict passport is present exactly when the loose field is present and passes its rule (years in 1920–2002, 2010–2020 and 2020–2030; height; hair colour; one of seven eye colours; a nine-character numeric id); kept text fields are unchanged and `cid` passes through |
| Passports.ValidImpliesRequired | challenges/src/day04/passports.rs:89-97 | conversion never invents a field, so a valid strict passport comes from a loose one with all required fields |
| Passports.ValidIffFieldsPass | challenges/src/day04/passports.rs:89-97 | a strict passport is valid exactly when the loose one has all required fields and each passes its rule |
| Passports.PassportIdAcceptsPlus | challenges/src/day04/passports.rs:216-222 | a nine-character id with a leading `+` is accepted, since the integer parser allows that sign |
| Day09.New | challenges/src/day09/mod.rs:12-22 | the input reads exactly when every whitespace word is an unsigned integer; the numbers are the parsed words, in order |
| Day09.IsPairSumIff | challenges/src/day09/mod.rs:68-81 | the position-by-position pair test finds a pair exactly when two distinct positions of the window add up to the target |
| Day09.FindValidPair | challenges/src/day09/mod.rs:68-81 | the double loop returns true exactly when two values at distinct positions add up to the target; equal values at different positions count |
| Day09.RunLength | challenges/src/day09/mod.rs:34-39 | the run ending at a position is non-empty exactly when its value is not a pair sum of the preamble before it |
| Day09.RunMemberInvalid | challenges/src/day09/mod.rs:35-39 | every value of the run of matches is invalid |
| Day09.RunStartValid | challenges/src/day09/mod.rs:37-39 | the run is maximal: the value just before it, past the preamble, is valid |
| Day09.Run | challenges/src/day09/mod.rs:34-39 | the run kept at a position is the stretch of values ending there, all of them invalid, and cannot be extended backwards: the value just before it, past the preamble, is valid |
| Day09.RunStep | challenges/src/day09/mod.rs:35-39 | the run of matches held before the next position grows by the current value when it is invalid and is cleared when it is valid |
| Day09.FindInvalidCode | challenges/src/day09/mod.rs:24-47 | the scan returns nothing when the preamble covers the input; otherwise it returns a value exactly when some run first reaches the required length, and that value is the sum of that run |
| Day09.FindContiguousRange | challenges/src/day09/mod.rs:49-66 | a result exists exactly when some range of at least two values adds up to the target; it is the least plus the greatest value of the first such range, ordered by start and then by end |
| Day09.FirstRunEndUnique | challenges/src/day09/mod.rs:41-43 | the scan's stopping position is unique: two first run ends are the same position |
| Day09.NoRangeForCode | challenges/src/day09/mod.rs:107-115 | when no range sums to the first invalid value, no first invalid value has a range, which is gold's second error |
| Day09.Silver | challenges/src/day09/mod.rs:84-97 | silver is the first value that is not a pair sum of the 25 before it, and the error when there is none |
| Day09.Gold | challenges/src/day09/mod.rs:99-117 | gold is the least plus greatest value of the first range summing to the first invalid value; the error means no invalid value, or no range for it |
| Day01.Sort | challenges/src/day01/mod.rs:17-20 | the sorted values are ordered and a permutation of the input |
| Day01.SortIsSortedPermutation | challenges/src/day01/mod.rs:17-20 | the sort gives the one sorted rearrangement of the input, so the stable/unstable choice does not matter |
| Day01.ReverseOfSorted | challenges/src/day01/mod.rs:22 | reversing the ascending values keeps them and makes them descending |
| Day01.ReverseReverse | challenges/src/day01/mod.rs:22 | reversing twice gives back the original |
| Day01.New | challenges/src/day01/mod.rs:13-28 | the input reads exactly when every word is a `u32`; the ascending copy is the sorted input and the descending copy its reverse |
| Day01.Silver | challenges/src/day01/mod.rs:40-58 | silver succeeds exactly when some ascending and descending entries, first not larger, add up to 2020; it reports the first such pair in loop order with its product |
| Day01.PairFromInput | challenges/src/day01/mod.rs:44-52 | both numbers of a silver answer come from the input and the first is not larger |
| Day01.SelfPairing | challenges/src/day01/mod.rs:41-52 | the two numbers of a silver answer may be one and the same entry |
| Day01.CompleteTriple | challenges/src/day01/mod.rs:76-89 | the inner scan finds the first descending entry completing a triple, or shows there is none |
| Day01.Gold | challenges/src/day01/mod.rs:70-94 | gold succeeds exactly when some triple, first value the smallest, adds up to 2020; it reports the first such triple in loop order with its product |
| Day01.SampleSilver | challenges/src/day01/tests.rs:4-36 | on the example report silver is 299 and 1721, with product 514579 |
| Day01.SampleGold | challenges/src/day01/tests.rs:4-58 | on the example report gold is 366, 675 and 979, with product 241861950 |
| Questionaire.LetterToIndex | challenges/src/day06/questionaire.rs:19-50 | exactly the lower-case letters have a slot, each its position in the alphabet; any other character gives the unrecognised-letter error |
| Questionaire.LetterIndexRoundTrip | challenges/src/day06/questionaire.rs:21-47 | every slot is reached by its own letter |
| Questionaire.LetterToIndexInjective | challenges/src/day06/questionaire.rs:21-47 | two letters that reach the same slot are the same letter |
| Questionaire.Mark | challenges/src/day06/questionaire.rs:10-14 | marking keeps every slot already set and sets exactly the slots of the letters in the text |
| Questionaire.New | challenges/src/day06/questionaire.rs:7-17 | slot `i` is set exactly when the `i`-th letter occurs in the text |
| Questionaire.NewDependsOnLetters | challenges/src/day06/questionaire.rs:7-17 | only which letters occur matters: order, repetition and other characters do not |
| Questionaire.NewGroup | challenges/src/day06/questionaire.rs:63-70 | a group has one questionnaire per whitespace word, in order |
| Questionaire.Union | challenges/src/day06/questionaire.rs:73-79 | the or-ed slots are set exactly when somebody answered yes |
| Questionaire.Intersection | challenges/src/day06/questionaire.rs:89-95 | the and-ed slots are set exactly when everybody answered yes |
| Questionaire.SumOfAnyYes | challenges/src/day06/questionaire.rs:72-86 | the count is the number of questions somebody answered yes, at most 26 |
| Questionaire.SumOfAllYes | challenges/src/day06/questionaire.rs:88-102 | the count is the number of questions everybody answered yes, at most 26 |
| Questionaire.EmptyGroupSums | challenges/src/day06/questionaire.rs:73-101 | an empty group counts 26 for all-yes and 0 for any-yes |
| Questionaire.AllWithinAny | challenges/src/day06/questionaire.rs:72-102 | in a non-empty group, every all-yes question is an any-yes question, so the all-yes count is at most the any-yes count |
| Day06.New | challenges/src/day06/mod.rs:14-27 | reading never fails, and gives one group per `"\n\n"`-separated chunk, in order |
| Day06.AnyCounts | challenges/src/day06/mod.rs:39-41 | the per-group silver terms are, group by group, the number of questions somebody in it answered yes |
| Day06.AllCounts | challenges/src/day06/mod.rs:55-57 | the per-group gold terms are, group by group, the number of questions everybody in it answered yes |
| Day06.Silver | challenges/src/day06/mod.rs:30-44 | silver never fails and is at most 26 per group |
| Day06.Gold | challenges/src/day06/mod.rs:46-60 | gold never fails and is at most 26 per group |
| Day06.TotalsAppend | challenges/src/day06/mod.rs:38-58 | both totals add up group by group over any split of the groups |
| Day06.GoldAtMostSilver | challenges/src/day06/mod.rs:38-58 | when no group is empty, gold is at most silver |
| Day06.EmptyGroupCounts | challenges/src/day06/mod.rs:19-22 | an empty chunk adds nothing to silver and 26 to gold |
| Day06.EmptyChunk | challenges/src/day06/questionaire.rs:63-70 | an empty chunk reads as a group with nobody in it |
| Day06.SampleOneTotals | challenges/src/day06/tests.rs:4-68 | the first example gives silver 6 and gold 3 |
| Day06.SampleTwoTotals | challenges/src/day06/tests.rs:8-76 | the second example gives silver 11 and gold 6 |
| Bags.FindParents | challenges/src/day07/bags.rs:39-51 | the search only ever adds to the map it is given |
| Bags.ParentsFrom | challenges/src/day07/bags.rs:40-48 | the loop over the map from any entry on only ever adds to the set it is given |
| Bags.ParentsFromAbove | challenges/src/day07/bags.rs:40-48 | the loop from an entry on adds exactly the colours that eventually hold the target through a holder at or after that entry |
| Bags.ParentsAreAncestors | challenges/src/day07/bags.rs:39-51 | the search adds to the given map exactly the colours that eventually hold the target |
| Bags.ParentsIgnoreOrder | challenges/src/day07/bags.rs:40 | the result does not depend on the order in which the map's entries are visited |
| Bags.NotOwnParent | challenges/src/day07/bags.rs:39-51 | a colour is never counted among its own containers |
| Bags.SilverFind | challenges/src/day07/bags.rs:53-55 | silver is the number of distinct colours that eventually hold the target |
| Bags.WithinTransitive | challenges/src/day07/bags.rs:42-44 | eventual containment is transitive |
| Bags.GoldFind | challenges/src/day07/bags.rs:57-65 | the count is 0 exactly when every entry of the colour's rule has count 0, so a bag with no contents counts 0 |
| Bags.GoldFrom | challenges/src/day07/bags.rs:58-64 | the sum over a rule's entries is 0 exactly when every entry has count 0 |
| Bags.GoldFromCountsUnpacked | challenges/src/day07/bags.rs:58-64 | the sum over a rule's entries is the number of bags found by unpacking those entries all the way down |
| Bags.GoldCountsUnpacked | challenges/src/day07/bags.rs:57-65 | the count is the number of bags found by unpacking a bag of the colour all the way down |
| Bags.SampleAncestors | challenges/src/day07/tests.rs:4-12 | under any acyclic ranking, the colours that eventually hold a shiny gold bag in the example are bright white, muted yellow, dark orange and light red |
| Bags.SampleSilver | challenges/src/day07/tests.rs:4-33 | under any acyclic ranking and any visiting order, four colours eventually hold a shiny gold bag in the example |
| Bags.SampleGold | challenges/src/day07/tests.rs:4-49 | under any acyclic ranking, a shiny gold bag holds 32 bags in the example |
| Logger.Show | runner/src/logger.rs:18-31 | each level prints as one of the four accepted names, in lower-case letters |
| Logger.Parse | runner/src/logger.rs:33-45 | exactly `debug`, `info`, `warn` and `fail` parse, case-sensitively; any other string is the invalid-level error |
| Logger.ShowInjective | runner/src/logger.rs:18-31 | distinct levels print differently |
| Logger.ParseShow | runner/src/logger.rs:18-45 | parsing a printed level gives the level back |
| Logger.ShowParse | runner/src/logger.rs:18-45 | a string parses to a level exactly when it is that level's printed name |
| Wrappers.MapUntilErr | challenges/src/day08/mod.rs:18-32 | the loop succeeds exactly when every item parses, and then returns every parsed value in order |
| Wrappers.MapUntilErrFails | challenges/src/day02/mod.rs:46-67 | a failing loop reports the error of the first item that fails; every item before it parses |
| Text.SplitOn | challenges/src/day08/mod.rs:16 | splitting gives at least one piece, no piece holds the pattern, and joining the pieces with it gives the input back |
| Text.SplitOnJoin | challenges/src/day06/mod.rs:19 | splitting on a character undoes joining with it when no part holds it |
| Text.SplitWhitespace | challenges/src/day04/passports.rs:29 | every word is non-empty and free of whitespace |
| Text.SplitWhitespaceKeepsContent | challenges/src/day09/mod.rs:14 | the words hold every non-whitespace character, in order, and nothing else |
| Text.SplitWhitespaceOfJoinSpaced | challenges/src/day01/mod.rs:14 | splitting words joined with spaces gives the words back |
| Text.Lines | challenges/src/day02/mod.rs:43 | no line holds a newline, an empty input has no lines, and there are no more lines than newline-separated pieces |
| Text.LinesOfJoin | challenges/src/day02/mod.rs:43 | lines joined with newlines come back from `lines` when none is carriage-return terminated and the last is non-empty |
| Text.MatchCountChar | challenges/src/day02/mod.rs:173-177 | for a one-character pattern the match count is the number of occurrences of that character |
| Text.ParseUnsigned | challenges/src/day09/mod.rs:15 | a string parses exactly when it is a non-empty run of decimal digits, optionally after one `+` |
| Text.ParseSigned | challenges/src/day08/mod.rs:24 | a string parses exactly when it is an unsigned integer or a `-` followed by digits, and only the `-` form gives a negative value |
| Text.JoinCount | challenges/src/day06/mod.rs:19 | pieces joined with a character that none of them holds contain that character exactly one time fewer than there are pieces |
| Text.ParseUnsignedRoundTrip | challenges/src/day09/mod.rs:15 | the decimal rendering of a natural number parses back to it |
| Text.ParseSignedRoundTrip | challenges/src/day08/mod.rs:24 | the signed rendering of an integer parses back to it |
| Text.ParseNumbers | challenges/src/day01/mod.rs:14-16 | the words parse exactly when each is an unsigned integer, and then the values are those of the words in order |
| Seqs.CountIsWhere | challenges/src/day02/mod.rs:182-185 | counting the elements that pass a filter gives the number of positions whose element passes |
| Seqs.LastWhere | challenges/src/day04/passports.rs:49-59 | the result is a position whose element matches with no match after it, or -1 exactly when nothing matches |
| Seqs.Min | challenges/src/day09/mod.rs:59-60 | the first value after sorting is an element no larger than any other |
| Seqs.Max | challenges/src/day09/mod.rs:59-60 | the last value after sorting is an element no smaller than any other |

## Left out

- Reading the puzzle input, the command-line runner (`runner/src/main.rs`,
  `runner/src/challenges.rs`), timing and printing: this is I/O plumbing.
- Machine integer widths: `i64` tokens and accumulators on day 8, `usize`
  sums on days 2 and 9, `u32` sums and products on day 1, and `i64` counts
  on day 7 are unbounded integers here. Overflow, whether a panic or a
  wrap-around, is not modelled.
- Tokens.MoveCursor: the two `try_from` conversions cannot fail on unbounded
  integers, so their "too large" errors are not modelled.
- Day01.New: the `u32` range is modelled by rejecting values of 2^32 or more,
  as the parser does. `sort_unstable` is modelled by a sort, which gives the
  same sequence because equal `u32` values cannot be told apart.
- Day01.Silver and Day01.Gold require the invariant that `Day01::new`
  establishes (ascending copy sorted, descending copy its reverse). The
  struct's fields are private, so no other value reaches the searches.
- Day02.StrToRange: requires at least two parts, because the source indexes
  `endpoints[0]` and `endpoints[1]` and panics with fewer.
- Day02.New: requires that no line reached by the loop would make the range
  parser panic, for the same reason. A panic is not an error value.
- Day02.Gold: requires both 1-based positions to lie inside each password,
  because the source indexes the characters and panics otherwise.
- Day09.FindContiguousRange: `sort` followed by the first and last element
  is modelled as the minimum plus the maximum of the range.
- Bags: the PEG grammar that parses the rules is generated by the `peg`
  crate and is not part of this model. `Bags` works on an already-parsed
  rule map.
- Bags.FindParents and Bags.GoldFind: require the whole rule map to be
  acyclic, witnessed by a ghost ranking. The source only recurses forever
  when the search reaches a cycle: `find_parents` when one lies among the
  colours that eventually hold the argument, `gold_find` when one lies
  among the colours it eventually holds. Rules with a cycle elsewhere, such
  as `{a: [(1, a)], c: []}` searched from `c`, make the source return an
  empty map or 0, and are outside the model.
- Bags.GoldFind: requires the colour to have a rule, because the source
  indexes the map with it and panics otherwise. It also requires every
  colour that any rule mentions to have a rule. The source panics only on
  a missing colour the count reaches, so rules such as
  `{a: [(1, b)], b: [], c: [(2, zz)]}` counted from `a` (which the source
  answers with 1) are outside the model.
- Bags.FindParents: the `HashMap` iteration order is a parameter. The
  result is proved not to depend on it.
- `challenges/src/day07/mod.rs` is a stub whose answers are always
  `Err("NYI")`, so the sample answers are stated for `silver_find` and
  `gold_find` directly.
- Text.Lines: `str::lines` is modelled with the current standard library
  rule, which strips a `'\r'` only right before a `'\n'`.
- Text.ParseUnsigned: a leading `+` is accepted, as Rust's integer parsers
  do. Widths are not checked except where noted above.
- `char::is_whitespace` is modelled by the ASCII whitespace characters and
  the other Unicode `White_Space` characters as one predicate; no Unicode
  tables beyond that predicate are modelled.
- The day 9 sample tests are commented out in the source and use a
  preamble of 5, so no sample lemma is stated for day 9.
