/** Day 6's customs declarations: one questionnaire per person, recording
    which of the 26 questions `a` to `z` they answered yes to, and groups
    of questionnaires whose union and intersection are counted. */
module Questionaire {
  import opened Wrappers
  import opened Text
  import Seqs

  /** The number of questions, one per lower-case letter. */
  const Letters: nat := 26

  /** `n` copies of `b`. */
  function Fill(n: nat, b: bool): (r: seq<bool>)
    ensures |r| == n && forall i :: 0 <= i < n ==> r[i] == b
  {
    seq(n, _ => b)
  }

  /** Rust's `[bool; 26]`. */
  type Answers = a: seq<bool> | |a| == Letters witness Fill(26, false)

  const NoAnswers: Answers := Fill(Letters, false)
  const AllAnswers: Answers := Fill(Letters, true)

  function LetterError(letter: char): string {
    "Unrecognized question letter given: " + [letter] + "."
  }

  /** The question a slot stands for. */
  function IndexToLetter(i: nat): (c: char)
    requires i < Letters
    ensures 'a' <= c <= 'z'
  {
    ('a' as int + i) as char
  }

  /** `letter_to_index`: the 26 lower-case letters in alphabetical order;
      every other character is an error. */
  function LetterToIndex(letter: char): (r: Result<nat>)
    ensures r.Ok? <==> 'a' <= letter <= 'z'
    ensures r.Ok? ==> r.value < Letters && IndexToLetter(r.value) == letter
    ensures r.Err? ==> r.error == LetterError(letter)
  {
    if 'a' <= letter <= 'z' then Ok((letter as int - 'a' as int) as nat)
    else Err(LetterError(letter))
  }

  /** Every slot is reached by exactly its own letter. */
  lemma LetterIndexRoundTrip(i: nat)
    requires i < Letters
    ensures LetterToIndex(IndexToLetter(i)) == Ok(i)
  {
  }

  /** Letters that index the same slot are the same letter. */
  lemma LetterToIndexInjective(a: char, b: char)
    requires LetterToIndex(a).Ok? && LetterToIndex(a) == LetterToIndex(b)
    ensures a == b
  {
  }

  // ---------------------------------------------------------------------------
  // One person
  // ---------------------------------------------------------------------------

  datatype Questionaire = Questionaire(answers: Answers)

  /** The loop of `Questionaire::new` from `answers` on: every letter of
      `text` sets its slot, and any other character is skipped. */
  function Mark(answers: Answers, text: string): (r: Answers)
    ensures forall i :: 0 <= i < Letters ==> (r[i] <==> answers[i] || IndexToLetter(i) in text)
    decreases |text|
  {
    if |text| == 0 then answers
    else
      var next := match LetterToIndex(text[0])
        case Ok(index) => answers[index := true]
        case Err(_) => answers;
      assert text == [text[0]] + text[1..];
      Mark(next, text[1..])
  }

  /** `Questionaire::new`: slot `i` is set exactly when the `i`-th letter
      occurs in the text. */
  function New(text: string): (q: Questionaire)
    ensures forall i :: 0 <= i < Letters ==> (q.answers[i] <==> IndexToLetter(i) in text)
  {
    Questionaire(Mark(NoAnswers, text))
  }

  /** Only which letters occur matters: order, repetition and other
      characters make no difference. */
  lemma NewDependsOnLetters(a: string, b: string)
    requires forall c :: 'a' <= c <= 'z' ==> (c in a <==> c in b)
    ensures New(a) == New(b)
  {
    var x, y := New(a).answers, New(b).answers;
    forall i | 0 <= i < Letters
      ensures x[i] == y[i]
    {
      var c := IndexToLetter(i);
      assert c in a <==> c in b;
    }
  }

  // ---------------------------------------------------------------------------
  // A group
  // ---------------------------------------------------------------------------

  datatype QuestionaireGroup = QuestionaireGroup(questionaires: seq<Questionaire>)

  /** One questionnaire per word, in order. */
  function GroupOf(words: seq<string>): (g: QuestionaireGroup)
    ensures |g.questionaires| == |words|
    ensures forall k :: 0 <= k < |words| ==> g.questionaires[k] == New(words[k])
    ensures forall k, i :: 0 <= k < |words| && 0 <= i < Letters ==>
              (g.questionaires[k].answers[i] <==> IndexToLetter(i) in words[k])
  {
    QuestionaireGroup(seq(|words|, k requires 0 <= k < |words| => New(words[k])))
  }

  /** `QuestionaireGroup::new`: one questionnaire per whitespace-separated
      word of the text, in order. */
  function NewGroup(text: string): (g: QuestionaireGroup)
    ensures |g.questionaires| == |SplitWhitespace(text)|
    ensures forall k, i :: 0 <= k < |g.questionaires| && 0 <= i < Letters ==>
              (g.questionaires[k].answers[i] <==> IndexToLetter(i) in SplitWhitespace(text)[k])
  {
    GroupOf(SplitWhitespace(text))
  }

  /** Somebody in the group answered question `i` yes. */
  predicate AnyYes(qs: seq<Questionaire>, i: nat)
    requires i < Letters
  {
    exists k :: 0 <= k < |qs| && qs[k].answers[i]
  }

  /** Everybody in the group answered question `i` yes. */
  predicate AllYes(qs: seq<Questionaire>, i: nat)
    requires i < Letters
  {
    forall k :: 0 <= k < |qs| ==> qs[k].answers[i]
  }

  /** The first loop of `sum_of_any_yes`: slot by slot, `acc` or-ed with
      every questionnaire in turn. */
  function Union(acc: Answers, qs: seq<Questionaire>): (r: Answers)
    ensures forall i :: 0 <= i < Letters ==> (r[i] <==> acc[i] || AnyYes(qs, i))
    decreases |qs|
  {
    if |qs| == 0 then acc
    else
      var next: Answers := seq(Letters, i requires 0 <= i < Letters => acc[i] || qs[0].answers[i]);
      var r := Union(next, qs[1..]);
      forall i | 0 <= i < Letters
        ensures AnyYes(qs, i) <==> qs[0].answers[i] || AnyYes(qs[1..], i)
      {
        if AnyYes(qs, i) && !qs[0].answers[i] {
          var k :| 0 <= k < |qs| && qs[k].answers[i];
          assert qs[1..][k - 1] == qs[k];
        }
        if AnyYes(qs[1..], i) {
          var k :| 0 <= k < |qs| - 1 && qs[1..][k].answers[i];
          assert qs[k + 1] == qs[1..][k];
        }
      }
      r
  }

  /** The first loop of `sum_of_all_yes`: slot by slot, `acc` and-ed with
      every questionnaire in turn. */
  function Intersection(acc: Answers, qs: seq<Questionaire>): (r: Answers)
    ensures forall i :: 0 <= i < Letters ==> (r[i] <==> acc[i] && AllYes(qs, i))
    decreases |qs|
  {
    if |qs| == 0 then acc
    else
      var next: Answers := seq(Letters, i requires 0 <= i < Letters => acc[i] && qs[0].answers[i]);
      var r := Intersection(next, qs[1..]);
      forall i | 0 <= i < Letters
        ensures AllYes(qs, i) <==> qs[0].answers[i] && AllYes(qs[1..], i)
      {
        if qs[0].answers[i] && AllYes(qs[1..], i) {
          forall k | 0 <= k < |qs|
            ensures qs[k].answers[i]
          {
            if k > 0 {
              assert qs[k] == qs[1..][k - 1];
            }
          }
        }
        if AllYes(qs, i) {
          forall k | 0 <= k < |qs| - 1
            ensures qs[1..][k].answers[i]
          {
            assert qs[1..][k] == qs[k + 1];
          }
        }
      }
      r
  }

  // ---------------------------------------------------------------------------
  // Counting slots
  // ---------------------------------------------------------------------------

  function IsTrue(b: bool): bool {
    b
  }

  /** The second loop of both sums: the number of set slots. */
  function CountYes(answers: seq<bool>): nat {
    Seqs.Count(answers, IsTrue)
  }

  /** Slot-wise implication carries over to the counts. */
  lemma {:induction false} CountYesMonotone(a: seq<bool>, b: seq<bool>)
    requires |a| == |b|
    requires forall i :: 0 <= i < |a| ==> a[i] ==> b[i]
    ensures CountYes(a) <= CountYes(b)
    decreases |a|
  {
    if |a| > 0 {
      CountYesMonotone(a[1..], b[1..]);
    }
  }

  /** The questions somebody in the group answered yes. */
  function AnyQuestions(g: QuestionaireGroup): set<nat> {
    set i: nat | i < Letters && AnyYes(g.questionaires, i)
  }

  /** The questions everybody in the group answered yes. */
  function AllQuestions(g: QuestionaireGroup): set<nat> {
    set i: nat | i < Letters && AllYes(g.questionaires, i)
  }

  /** `sum_of_any_yes`: the number of questions anybody answered yes. */
  function SumOfAnyYes(g: QuestionaireGroup): (n: nat)
    ensures n <= Letters
    ensures n == |AnyQuestions(g)|
  {
    var union := Union(NoAnswers, g.questionaires);
    Seqs.CountIsWhere(union, IsTrue);
    assert Seqs.Where(union, IsTrue, Letters) == AnyQuestions(g);
    CountYes(union)
  }

  /** `sum_of_all_yes`: the number of questions everybody answered yes. */
  function SumOfAllYes(g: QuestionaireGroup): (n: nat)
    ensures n <= Letters
    ensures n == |AllQuestions(g)|
  {
    var intersection := Intersection(AllAnswers, g.questionaires);
    Seqs.CountIsWhere(intersection, IsTrue);
    assert Seqs.Where(intersection, IsTrue, Letters) == AllQuestions(g);
    CountYes(intersection)
  }

  /** A group with nobody in it counts every question as answered yes by
      everybody and by nobody. */
  lemma EmptyGroupSums()
    ensures SumOfAllYes(QuestionaireGroup([])) == Letters
    ensures SumOfAnyYes(QuestionaireGroup([])) == 0
  {
    var g := QuestionaireGroup([]);
    assert Intersection(AllAnswers, g.questionaires) == AllAnswers;
    assert Union(NoAnswers, g.questionaires) == NoAnswers;
  }

  /** In a group with somebody in it, a question everybody answered yes
      is one somebody answered yes. */
  lemma AllWithinAny(g: QuestionaireGroup)
    requires |g.questionaires| > 0
    ensures AllQuestions(g) <= AnyQuestions(g)
    ensures SumOfAllYes(g) <= SumOfAnyYes(g)
  {
    var qs := g.questionaires;
    var inter := Intersection(AllAnswers, qs);
    var union := Union(NoAnswers, qs);
    forall i | 0 <= i < Letters
      ensures inter[i] ==> union[i]
    {
      if inter[i] {
        assert qs[0].answers[i];
      }
    }
    CountYesMonotone(inter, union);
  }
}
