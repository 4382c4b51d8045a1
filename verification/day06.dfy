/** Day 6: the input is cut into groups at blank lines, and the answers are
    the totals, over all groups, of the questions anybody (silver) and
    everybody (gold) in the group answered yes. */
module Day06 {
  import opened Wrappers
  import opened Text
  import Seqs
  import Q = Questionaire

  const GroupDelim := "\n\n"

  datatype Day06 = Day06(groups: seq<Q.QuestionaireGroup>)

  /** `Day06::new`: one group per `"\n\n"`-separated chunk, in order; it
      cannot fail. */
  function New(data: string): (r: Result<Day06>)
    ensures r.Ok?
    ensures |r.value.groups| == |SplitOn(data, GroupDelim)|
    ensures forall k :: 0 <= k < |r.value.groups| ==>
              r.value.groups[k] == Q.NewGroup(SplitOn(data, GroupDelim)[k])
  {
    var chunks := SplitOn(data, GroupDelim);
    Ok(Day06(seq(|chunks|, k requires 0 <= k < |chunks| => Q.NewGroup(chunks[k]))))
  }

  /** The per-group counts of questions anybody answered yes. */
  function AnyCounts(groups: seq<Q.QuestionaireGroup>): (counts: seq<nat>)
    ensures |counts| == |groups|
    ensures forall k :: 0 <= k < |groups| ==> counts[k] == |Q.AnyQuestions(groups[k])| <= Q.Letters
  {
    seq(|groups|, k requires 0 <= k < |groups| => Q.SumOfAnyYes(groups[k]))
  }

  /** The per-group counts of questions everybody answered yes. */
  function AllCounts(groups: seq<Q.QuestionaireGroup>): (counts: seq<nat>)
    ensures |counts| == |groups|
    ensures forall k :: 0 <= k < |groups| ==> counts[k] == |Q.AllQuestions(groups[k])| <= Q.Letters
  {
    seq(|groups|, k requires 0 <= k < |groups| => Q.SumOfAllYes(groups[k]))
  }

  /** `attempt_silver`: the total of the groups' any-yes counts; at most
      26 per group, and never an error. */
  function Silver(day: Day06): (r: Result<nat>)
    ensures r.Ok?
    ensures r.value <= Q.Letters * |day.groups|
  {
    var counts := AnyCounts(day.groups);
    Seqs.SumBounded(counts, Q.Letters);
    Ok(Seqs.Sum(counts))
  }

  /** `attempt_gold`: the total of the groups' all-yes counts; at most 26
      per group, and never an error. */
  function Gold(day: Day06): (r: Result<nat>)
    ensures r.Ok?
    ensures r.value <= Q.Letters * |day.groups|
  {
    var counts := AllCounts(day.groups);
    Seqs.SumBounded(counts, Q.Letters);
    Ok(Seqs.Sum(counts))
  }

  lemma AnyCountsAppend(a: seq<Q.QuestionaireGroup>, b: seq<Q.QuestionaireGroup>)
    ensures AnyCounts(a + b) == AnyCounts(a) + AnyCounts(b)
  {
    var l, r := AnyCounts(a + b), AnyCounts(a) + AnyCounts(b);
    forall k | 0 <= k < |a + b|
      ensures l[k] == r[k]
    {
      if k < |a| {
        assert (a + b)[k] == a[k];
      } else {
        assert (a + b)[k] == b[k - |a|];
      }
    }
  }

  lemma AllCountsAppend(a: seq<Q.QuestionaireGroup>, b: seq<Q.QuestionaireGroup>)
    ensures AllCounts(a + b) == AllCounts(a) + AllCounts(b)
  {
    var l, r := AllCounts(a + b), AllCounts(a) + AllCounts(b);
    forall k | 0 <= k < |a + b|
      ensures l[k] == r[k]
    {
      if k < |a| {
        assert (a + b)[k] == a[k];
      } else {
        assert (a + b)[k] == b[k - |a|];
      }
    }
  }

  /** Both totals add up group by group: the answer for two runs of groups
      is the sum of their answers. */
  lemma TotalsAppend(a: seq<Q.QuestionaireGroup>, b: seq<Q.QuestionaireGroup>)
    ensures Silver(Day06(a + b)).value == Silver(Day06(a)).value + Silver(Day06(b)).value
    ensures Gold(Day06(a + b)).value == Gold(Day06(a)).value + Gold(Day06(b)).value
  {
    AnyCountsAppend(a, b);
    AllCountsAppend(a, b);
    Seqs.SumAppend(AnyCounts(a), AnyCounts(b));
    Seqs.SumAppend(AllCounts(a), AllCounts(b));
  }

  /** When nobody's group is empty, gold never exceeds silver. */
  lemma GoldAtMostSilver(day: Day06)
    requires forall k :: 0 <= k < |day.groups| ==> |day.groups[k].questionaires| > 0
    ensures Gold(day).value <= Silver(day).value
  {
    forall k | 0 <= k < |day.groups|
      ensures AllCounts(day.groups)[k] <= AnyCounts(day.groups)[k]
    {
      Q.AllWithinAny(day.groups[k]);
    }
    Seqs.SumMonotone(AllCounts(day.groups), AnyCounts(day.groups));
  }

  /** An empty chunk (a run of blank lines, or a blank line at the end of
      the input) is a group with nobody in it: it adds nothing to silver
      and 26 to gold. */
  lemma EmptyGroupCounts(groups: seq<Q.QuestionaireGroup>)
    ensures Silver(Day06(groups + [Q.QuestionaireGroup([])])).value == Silver(Day06(groups)).value
    ensures Gold(Day06(groups + [Q.QuestionaireGroup([])])).value == Gold(Day06(groups)).value + Q.Letters
  {
    var empty := Q.QuestionaireGroup([]);
    TotalsAppend(groups, [empty]);
    Q.EmptyGroupSums();
    assert AnyCounts([empty])[0] == 0;
    assert AllCounts([empty])[0] == Q.Letters;
    assert Seqs.Sum(AnyCounts([empty])) == 0;
    assert Seqs.Sum(AllCounts([empty])) == Q.Letters;
  }

  /** The words of an empty chunk make a group with nobody in it. */
  lemma EmptyChunk()
    ensures Q.NewGroup("") == Q.QuestionaireGroup([])
  {
  }

  // ---------------------------------------------------------------------------
  // The worked examples, from the words of each group
  // ---------------------------------------------------------------------------

  /** The first example is one group of three people. */
  const SampleOne: seq<string> := ["abcx", "abcy", "abcz"]

  /** The second example: five groups. */
  const SampleTwo: seq<seq<string>> := [["abc"], ["a", "b", "c"], ["ab", "ac"], ["a", "a", "a", "a"], ["b"]]

  /** Somebody and everybody, spelled out for a group of 1. */
  lemma YesOf1(qs: seq<Q.Questionaire>, i: nat)
    requires |qs| == 1 && i < Q.Letters
    ensures Q.AnyYes(qs, i) <==> qs[0].answers[i]
    ensures Q.AllYes(qs, i) <==> qs[0].answers[i]
  {
  }

  /** Somebody and everybody, spelled out for a group of 2. */
  lemma YesOf2(qs: seq<Q.Questionaire>, i: nat)
    requires |qs| == 2 && i < Q.Letters
    ensures Q.AnyYes(qs, i) <==> qs[0].answers[i] || qs[1].answers[i]
    ensures Q.AllYes(qs, i) <==> qs[0].answers[i] && qs[1].answers[i]
  {
  }

  /** Somebody and everybody, spelled out for a group of 3. */
  lemma YesOf3(qs: seq<Q.Questionaire>, i: nat)
    requires |qs| == 3 && i < Q.Letters
    ensures Q.AnyYes(qs, i) <==> qs[0].answers[i] || qs[1].answers[i] || qs[2].answers[i]
    ensures Q.AllYes(qs, i) <==> qs[0].answers[i] && qs[1].answers[i] && qs[2].answers[i]
  {
  }

  /** Somebody and everybody, spelled out for a group of 4. */
  lemma YesOf4(qs: seq<Q.Questionaire>, i: nat)
    requires |qs| == 4 && i < Q.Letters
    ensures Q.AnyYes(qs, i) <==> qs[0].answers[i] || qs[1].answers[i] || qs[2].answers[i] || qs[3].answers[i]
    ensures Q.AllYes(qs, i) <==> qs[0].answers[i] && qs[1].answers[i] && qs[2].answers[i] && qs[3].answers[i]
  {
  }

  // The questions each word of the first example group answers.

  lemma AnswersOfAbcx(i: nat)
    requires i < Q.Letters
    ensures Q.New("abcx").answers[i] <==> i in {0, 1, 2, 23}
  {
    assert Q.IndexToLetter(i) in "abcx" <==> i in {0, 1, 2, 23};
  }

  lemma AnswersOfAbcy(i: nat)
    requires i < Q.Letters
    ensures Q.New("abcy").answers[i] <==> i in {0, 1, 2, 24}
  {
    assert Q.IndexToLetter(i) in "abcy" <==> i in {0, 1, 2, 24};
  }

  lemma AnswersOfAbcz(i: nat)
    requires i < Q.Letters
    ensures Q.New("abcz").answers[i] <==> i in {0, 1, 2, 25}
  {
    assert Q.IndexToLetter(i) in "abcz" <==> i in {0, 1, 2, 25};
  }

  lemma SampleOneSlot(i: nat)
    requires i < Q.Letters
    ensures Q.AnyYes(Q.GroupOf(SampleOne).questionaires, i) <==> i in {0, 1, 2, 23, 24, 25}
    ensures Q.AllYes(Q.GroupOf(SampleOne).questionaires, i) <==> i in {0, 1, 2}
  {
    var qs := Q.GroupOf(SampleOne).questionaires;
    YesOf3(qs, i);
    assert qs[0] == Q.New("abcx");
    assert qs[1] == Q.New("abcy");
    assert qs[2] == Q.New("abcz");
    AnswersOfAbcx(i);
    AnswersOfAbcy(i);
    AnswersOfAbcz(i);
  }

  lemma SampleOneGroup()
    ensures Q.AnyQuestions(Q.GroupOf(SampleOne)) == {0, 1, 2, 23, 24, 25}
    ensures Q.AllQuestions(Q.GroupOf(SampleOne)) == {0, 1, 2}
  {
    SampleOneAny();
    SampleOneAll();
  }

  lemma SampleOneAny()
    ensures Q.AnyQuestions(Q.GroupOf(SampleOne)) == {0, 1, 2, 23, 24, 25}
  {
    forall i: nat | i < Q.Letters
      ensures Q.AnyYes(Q.GroupOf(SampleOne).questionaires, i) <==> i in {0, 1, 2, 23, 24, 25}
    {
      SampleOneSlot(i);
    }
  }

  lemma SampleOneAll()
    ensures Q.AllQuestions(Q.GroupOf(SampleOne)) == {0, 1, 2}
  {
    forall i: nat | i < Q.Letters
      ensures Q.AllYes(Q.GroupOf(SampleOne).questionaires, i) <==> i in {0, 1, 2}
    {
      SampleOneSlot(i);
    }
  }

  lemma SampleTwo0Slot(i: nat)
    requires i < Q.Letters
    ensures Q.AnyYes(Q.GroupOf(SampleTwo[0]).questionaires, i) <==> i in {0, 1, 2}
    ensures Q.AllYes(Q.GroupOf(SampleTwo[0]).questionaires, i) <==> i in {0, 1, 2}
  {
    var qs := Q.GroupOf(SampleTwo[0]).questionaires;
    YesOf1(qs, i);
    assert qs[0] == Q.New("abc");
    assert Q.IndexToLetter(i) in "abc" <==> i in {0, 1, 2};
  }

  lemma SampleTwo0Group()
    ensures Q.AnyQuestions(Q.GroupOf(SampleTwo[0])) == {0, 1, 2}
    ensures Q.AllQuestions(Q.GroupOf(SampleTwo[0])) == {0, 1, 2}
  {
    forall i: nat | i < Q.Letters
      ensures Q.AnyYes(Q.GroupOf(SampleTwo[0]).questionaires, i) <==> i in {0, 1, 2}
      ensures Q.AllYes(Q.GroupOf(SampleTwo[0]).questionaires, i) <==> i in {0, 1, 2}
    {
      SampleTwo0Slot(i);
    }
  }

  lemma SampleTwo1Slot(i: nat)
    requires i < Q.Letters
    ensures Q.AnyYes(Q.GroupOf(SampleTwo[1]).questionaires, i) <==> i in {0, 1, 2}
    ensures Q.AllYes(Q.GroupOf(SampleTwo[1]).questionaires, i) <==> i in {}
  {
    var qs := Q.GroupOf(SampleTwo[1]).questionaires;
    YesOf3(qs, i);
    assert qs[0] == Q.New("a");
    assert qs[1] == Q.New("b");
    assert qs[2] == Q.New("c");
    assert Q.IndexToLetter(i) in "a" <==> i in {0};
    assert Q.IndexToLetter(i) in "b" <==> i in {1};
    assert Q.IndexToLetter(i) in "c" <==> i in {2};
  }

  lemma SampleTwo1Group()
    ensures Q.AnyQuestions(Q.GroupOf(SampleTwo[1])) == {0, 1, 2}
    ensures Q.AllQuestions(Q.GroupOf(SampleTwo[1])) == {}
  {
    forall i: nat | i < Q.Letters
      ensures Q.AnyYes(Q.GroupOf(SampleTwo[1]).questionaires, i) <==> i in {0, 1, 2}
      ensures Q.AllYes(Q.GroupOf(SampleTwo[1]).questionaires, i) <==> i in {}
    {
      SampleTwo1Slot(i);
    }
  }

  lemma SampleTwo2Slot(i: nat)
    requires i < Q.Letters
    ensures Q.AnyYes(Q.GroupOf(SampleTwo[2]).questionaires, i) <==> i in {0, 1, 2}
    ensures Q.AllYes(Q.GroupOf(SampleTwo[2]).questionaires, i) <==> i in {0}
  {
    var qs := Q.GroupOf(SampleTwo[2]).questionaires;
    YesOf2(qs, i);
    assert qs[0] == Q.New("ab");
    assert qs[1] == Q.New("ac");
    assert Q.IndexToLetter(i) in "ab" <==> i in {0, 1};
    assert Q.IndexToLetter(i) in "ac" <==> i in {0, 2};
  }

  lemma SampleTwo2Group()
    ensures Q.AnyQuestions(Q.GroupOf(SampleTwo[2])) == {0, 1, 2}
    ensures Q.AllQuestions(Q.GroupOf(SampleTwo[2])) == {0}
  {
    forall i: nat | i < Q.Letters
      ensures Q.AnyYes(Q.GroupOf(SampleTwo[2]).questionaires, i) <==> i in {0, 1, 2}
      ensures Q.AllYes(Q.GroupOf(SampleTwo[2]).questionaires, i) <==> i in {0}
    {
      SampleTwo2Slot(i);
    }
  }

  lemma SampleTwo3Slot(i: nat)
    requires i < Q.Letters
    ensures Q.AnyYes(Q.GroupOf(SampleTwo[3]).questionaires, i) <==> i in {0}
    ensures Q.AllYes(Q.GroupOf(SampleTwo[3]).questionaires, i) <==> i in {0}
  {
    var qs := Q.GroupOf(SampleTwo[3]).questionaires;
    YesOf4(qs, i);
    assert qs[0] == Q.New("a");
    assert qs[1] == Q.New("a");
    assert qs[2] == Q.New("a");
    assert qs[3] == Q.New("a");
    assert Q.IndexToLetter(i) in "a" <==> i in {0};
  }

  lemma SampleTwo3Group()
    ensures Q.AnyQuestions(Q.GroupOf(SampleTwo[3])) == {0}
    ensures Q.AllQuestions(Q.GroupOf(SampleTwo[3])) == {0}
  {
    forall i: nat | i < Q.Letters
      ensures Q.AnyYes(Q.GroupOf(SampleTwo[3]).questionaires, i) <==> i in {0}
      ensures Q.AllYes(Q.GroupOf(SampleTwo[3]).questionaires, i) <==> i in {0}
    {
      SampleTwo3Slot(i);
    }
  }

  lemma SampleTwo4Slot(i: nat)
    requires i < Q.Letters
    ensures Q.AnyYes(Q.GroupOf(SampleTwo[4]).questionaires, i) <==> i in {1}
    ensures Q.AllYes(Q.GroupOf(SampleTwo[4]).questionaires, i) <==> i in {1}
  {
    var qs := Q.GroupOf(SampleTwo[4]).questionaires;
    YesOf1(qs, i);
    assert qs[0] == Q.New("b");
    assert Q.IndexToLetter(i) in "b" <==> i in {1};
  }

  lemma SampleTwo4Group()
    ensures Q.AnyQuestions(Q.GroupOf(SampleTwo[4])) == {1}
    ensures Q.AllQuestions(Q.GroupOf(SampleTwo[4])) == {1}
  {
    forall i: nat | i < Q.Letters
      ensures Q.AnyYes(Q.GroupOf(SampleTwo[4]).questionaires, i) <==> i in {1}
      ensures Q.AllYes(Q.GroupOf(SampleTwo[4]).questionaires, i) <==> i in {1}
    {
      SampleTwo4Slot(i);
    }
  }

  /** The totals of a day with one group. */
  lemma TotalsOfOne(day: Day06)
    requires |day.groups| == 1
    ensures Silver(day) == Ok(|Q.AnyQuestions(day.groups[0])|)
    ensures Gold(day) == Ok(|Q.AllQuestions(day.groups[0])|)
  {
    var any, all := AnyCounts(day.groups), AllCounts(day.groups);
    assert any[1..] == [] && all[1..] == [];
    assert Seqs.Sum(any) == any[0] + Seqs.Sum(any[1..]);
    assert Seqs.Sum(all) == all[0] + Seqs.Sum(all[1..]);
  }

  /** The totals of a day with five groups. */
  lemma TotalsOfFive(g0: Q.QuestionaireGroup, g1: Q.QuestionaireGroup, g2: Q.QuestionaireGroup,
                     g3: Q.QuestionaireGroup, g4: Q.QuestionaireGroup)
    ensures Silver(Day06([g0, g1, g2, g3, g4])).value == |Q.AnyQuestions(g0)| + |Q.AnyQuestions(g1)|
              + |Q.AnyQuestions(g2)| + |Q.AnyQuestions(g3)| + |Q.AnyQuestions(g4)|
    ensures Gold(Day06([g0, g1, g2, g3, g4])).value == |Q.AllQuestions(g0)| + |Q.AllQuestions(g1)|
              + |Q.AllQuestions(g2)| + |Q.AllQuestions(g3)| + |Q.AllQuestions(g4)|
  {
    var groups := [g0, g1, g2, g3, g4];
    Seqs.SumFive(AnyCounts(groups));
    Seqs.SumFive(AllCounts(groups));
  }

  /** The sizes of the question sets of the examples. */
  lemma SampleSetSizes()
    ensures var s: set<nat> := {0, 1, 2, 23, 24, 25}; |s| == 6
    ensures var s: set<nat> := {0, 1, 2}; |s| == 3
    ensures var s: set<nat> := {0}; |s| == 1
    ensures var s: set<nat> := {1}; |s| == 1
  {
  }

  /** The first example's answers: 6 for silver and 3 for gold. The group
      is a parameter so that its totals are derived from its question sets
      rather than evaluated letter by letter. */
  lemma SampleOneTotals(g: Q.QuestionaireGroup)
    requires g == Q.GroupOf(SampleOne)
    ensures Silver(Day06([g])) == Ok(6)
    ensures Gold(Day06([g])) == Ok(3)
  {
    SampleOneGroup();
    SampleSetSizes();
    TotalsOfOne(Day06([g]));
  }

  /** The question counts of the second example's groups, one lemma per
      group so that each group's words are unfolded on their own. */
  lemma SampleTwo0Sizes(g: Q.QuestionaireGroup)
    requires g == Q.GroupOf(SampleTwo[0])
    ensures |Q.AnyQuestions(g)| == 3 && |Q.AllQuestions(g)| == 3
  {
    SampleTwo0Group();
    SampleSetSizes();
  }

  lemma SampleTwo1Sizes(g: Q.QuestionaireGroup)
    requires g == Q.GroupOf(SampleTwo[1])
    ensures |Q.AnyQuestions(g)| == 3 && |Q.AllQuestions(g)| == 0
  {
    SampleTwo1Group();
    SampleSetSizes();
  }

  lemma SampleTwo2Sizes(g: Q.QuestionaireGroup)
    requires g == Q.GroupOf(SampleTwo[2])
    ensures |Q.AnyQuestions(g)| == 3 && |Q.AllQuestions(g)| == 1
  {
    SampleTwo2Group();
    SampleSetSizes();
  }

  lemma SampleTwo3Sizes(g: Q.QuestionaireGroup)
    requires g == Q.GroupOf(SampleTwo[3])
    ensures |Q.AnyQuestions(g)| == 1 && |Q.AllQuestions(g)| == 1
  {
    SampleTwo3Group();
    SampleSetSizes();
  }

  lemma SampleTwo4Sizes(g: Q.QuestionaireGroup)
    requires g == Q.GroupOf(SampleTwo[4])
    ensures |Q.AnyQuestions(g)| == 1 && |Q.AllQuestions(g)| == 1
  {
    SampleTwo4Group();
    SampleSetSizes();
  }

  /** The second example's answers: 11 for silver and 6 for gold (both
      totals are always `Ok`). */
  lemma SampleTwoTotals(g0: Q.QuestionaireGroup, g1: Q.QuestionaireGroup, g2: Q.QuestionaireGroup,
                        g3: Q.QuestionaireGroup, g4: Q.QuestionaireGroup)
    requires g0 == Q.GroupOf(SampleTwo[0]) && g1 == Q.GroupOf(SampleTwo[1]) && g2 == Q.GroupOf(SampleTwo[2])
    requires g3 == Q.GroupOf(SampleTwo[3]) && g4 == Q.GroupOf(SampleTwo[4])
    ensures Silver(Day06([g0, g1, g2, g3, g4])).value == 11
    ensures Gold(Day06([g0, g1, g2, g3, g4])).value == 6
  {
    SampleTwo0Sizes(g0);
    SampleTwo1Sizes(g1);
    SampleTwo2Sizes(g2);
    SampleTwo3Sizes(g3);
    SampleTwo4Sizes(g4);
    TotalsOfFive(g0, g1, g2, g3, g4);
  }
}
