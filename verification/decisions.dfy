/**
 * The per-trial decision rules of the four scorers in multi_hub_rep.py, and the
 * entries they append to answer_set. Distances are exact reals.
 */
module Decisions {
  import opened Outcomes
  import opened Text
  import opened Normalizing

  /** 'correct' or 'incorrect'. */
  datatype Mark = Correct | Incorrect

  /** same_diff's verdict on one trial: ['same', 1] or ['diff', 2]. */
  datatype Verdict = Same | Diff {
    function Label(): string {
      if Same? then "same" else "diff"
    }

    function Code(): int {
      if Same? then 1 else 2
    }
  }

  /** The candidate learning_exemplar chooses: 'target', 'foil1' or 'foil2'. */
  datatype Pick = Target | Foil1 | Foil2

  /** One entry of answer_set. */
  datatype Answer =
    | Scored(score: real, mark: Mark)  // same_diff: [euc_score, euc_ans]
    | Chosen(mark: Mark, choice: int)  // three_ACF and many_oddball: [answer, choice]
    | Picked(mark: Mark, pick: Pick)   // learning_exemplar: [answer, choice]

  /** same_diff's threshold on a normalised distance. */
  function SameDiffVerdict(score: real): (v: Verdict)
    ensures v == Same <==> score < 0.5
    ensures v.Label() == "same" <==> v.Code() == 1
  {
    if score < 0.5 then Same else Diff
  }

  /**
   * same_diff's test of one trial: the recorded answer equals the verdict's word,
   * or else int() of the answer equals the verdict's code. int() of an answer that is
   * not a number raises, so a word answer that disagrees is an error, not a miss.
   */
  function JudgeSameDiff(recorded: string, score: real): (r: Result<Answer>)
    ensures r.Success? ==> r.value.Scored? && r.value.score == score
    ensures recorded == SameDiffVerdict(score).Label() ==> r == Success(Scored(score, Correct))
    ensures r.Failure? ==> r.error == NotAnInteger(recorded)
  {
    var verdict := SameDiffVerdict(score);
    if recorded == verdict.Label() then Success(Scored(score, Correct))
    else match ParseInt(recorded)
      case None => Failure(NotAnInteger(recorded))
      case Some(n) => Success(Scored(score, if n == verdict.Code() then Correct else Incorrect))
  }

  /**
   * A judged trial keeps its score and is correct exactly when the recorded answer
   * is the verdict's word or an integer equal to the verdict's code; the judgement
   * raises exactly when the recorded answer is neither the word nor an integer.
   */
  lemma JudgeSameDiffMeaning(recorded: string, score: real)
    ensures JudgeSameDiff(recorded, score).Failure? <==>
              recorded != SameDiffVerdict(score).Label() && ParseInt(recorded).None?
    ensures JudgeSameDiff(recorded, score).Success? ==>
              var a := JudgeSameDiff(recorded, score).value;
              && a.Scored? && a.score == score
              && (a.mark == Correct <==>
                    recorded == SameDiffVerdict(score).Label()
                    || ParseInt(recorded) == Some(SameDiffVerdict(score).Code()))
  {
  }

  /** A trial whose recorded answer is the code 1 or 2 is correct exactly when the code is the verdict's. */
  lemma SameDiffNumericLabel(code: nat, score: real)
    requires code == 1 || code == 2
    ensures JudgeSameDiff(NatToString(code), score).Success?
    ensures JudgeSameDiff(NatToString(code), score).value.score == score
    ensures JudgeSameDiff(NatToString(code), score).value.mark == Correct
            <==> (code == 1 <==> score < 0.5)
  {
    ParseIntOfNatToString(code);
    assert NatToString(code) != "same" && NatToString(code) != "diff" by {
      assert IsDigit(NatToString(code)[0]);
    }
  }

  /** A word answer is correct when it names the verdict and raises ValueError when it does not. */
  lemma SameDiffWordLabel(recorded: string, score: real)
    requires recorded == "same" || recorded == "diff"
    ensures recorded == SameDiffVerdict(score).Label() ==> JudgeSameDiff(recorded, score) == Success(Scored(score, Correct))
    ensures recorded != SameDiffVerdict(score).Label() ==> JudgeSameDiff(recorded, score) == Failure(NotAnInteger(recorded))
  {
    assert TrimStart(recorded) == recorded && TrimEnd(recorded) == recorded;
    assert !IsDigit(recorded[0]);
  }

  /** The distance from the target to candidate c of a three_ACF trial. */
  function Candidate(d1: real, d2: real, d3: real, c: int): real
    requires 1 <= c <= 3
  {
    if c == 1 then d1 else if c == 2 then d2 else d3
  }

  /**
   * three_ACF's choice: the 1-based position of the candidate nearest the target,
   * the lowest such position on a tie. Its ValueError branch cannot be taken.
   */
  function ThreeAcfChoice(d1: real, d2: real, d3: real): (c: int)
    ensures 1 <= c <= 3
    ensures forall j :: 1 <= j <= 3 ==> Candidate(d1, d2, d3, c) <= Candidate(d1, d2, d3, j)
    ensures forall j :: 1 <= j < c ==> Candidate(d1, d2, d3, j) > Candidate(d1, d2, d3, c)
  {
    var distances := [d1, d2, d3];
    var best := Min(distances);
    assert best <= distances[0] && best <= distances[1] && best <= distances[2];
    if best == d1 then 1
    else if best == d2 then 2
    else if best == d3 then 3
    else assert false; 0
  }

  /** The distance between the two images of an oddball trial other than image c. */
  function PairWithout(d12: real, d13: real, d23: real, c: int): real
    requires 1 <= c <= 3
  {
    if c == 3 then d12 else if c == 2 then d13 else d23
  }

  /** The distance between images i and j (distinct, each 1, 2 or 3) of an oddball trial. */
  function Between(d12: real, d13: real, d23: real, i: int, j: int): real
    requires 1 <= i <= 3 && 1 <= j <= 3 && i != j
  {
    if {i, j} == {1, 2} then d12 else if {i, j} == {1, 3} then d13 else d23
  }

  /**
   * many_oddball's choice: the image outside the closest pair, trying the pairs in
   * the order (1,2), (1,3), (2,3), so a tie goes to the higher image number. Its
   * ValueError branch cannot be taken.
   */
  function OddballChoice(d12: real, d13: real, d23: real): (c: int)
    ensures 1 <= c <= 3
    ensures forall j :: 1 <= j <= 3 ==> PairWithout(d12, d13, d23, c) <= PairWithout(d12, d13, d23, j)
    ensures forall j :: c < j <= 3 ==> PairWithout(d12, d13, d23, j) > PairWithout(d12, d13, d23, c)
  {
    var distances := [d12, d13, d23];
    var best := Min(distances);
    assert best <= distances[0] && best <= distances[1] && best <= distances[2];
    if best == d12 then 3
    else if best == d13 then 2
    else if best == d23 then 1
    else assert false; 0
  }

  /** The odd one out is at least as far from each other image as those two are from each other. */
  lemma OddballIsFarthest(d12: real, d13: real, d23: real, i: int, j: int)
    requires 1 <= i <= 3 && 1 <= j <= 3 && i != j
    requires i != OddballChoice(d12, d13, d23) && j != OddballChoice(d12, d13, d23)
    ensures Between(d12, d13, d23, OddballChoice(d12, d13, d23), i) >= Between(d12, d13, d23, i, j)
    ensures Between(d12, d13, d23, OddballChoice(d12, d13, d23), j) >= Between(d12, d13, d23, i, j)
  {
    var c := OddballChoice(d12, d13, d23);
    assert PairWithout(d12, d13, d23, c) == Between(d12, d13, d23, i, j);
    assert PairWithout(d12, d13, d23, j) == Between(d12, d13, d23, c, i);
    assert PairWithout(d12, d13, d23, i) == Between(d12, d13, d23, c, j);
  }

  /** learning_exemplar's choice from the three minimum reference distances. */
  function ExemplarChoice(targetMin: real, foil1Min: real, foil2Min: real): (p: Pick)
    ensures p == Target ==> targetMin < foil1Min && targetMin < foil2Min
    ensures p == Foil1 ==> foil1Min < targetMin && foil1Min < foil2Min
    ensures p == Foil2 ==> (foil2Min <= targetMin && foil2Min <= foil1Min) || TiedForNearest(targetMin, foil1Min, foil2Min)
  {
    if targetMin < foil1Min && targetMin < foil2Min then Target
    else if foil1Min < targetMin && foil1Min < foil2Min then Foil1
    else Foil2
  }

  /** Whether the smallest of three values is reached by at least two of them. */
  predicate TiedForNearest(a: real, b: real, c: real) {
    (a == b && a <= c) || (a == c && a <= b) || (b == c && b <= a)
  }

  /**
   * A candidate strictly nearer than both others is chosen; when the nearest
   * distance is shared, foil2 is chosen, even when foil2 is the farthest.
   */
  lemma ExemplarChoiceRule(targetMin: real, foil1Min: real, foil2Min: real)
    ensures targetMin < foil1Min && targetMin < foil2Min ==> ExemplarChoice(targetMin, foil1Min, foil2Min) == Target
    ensures foil1Min < targetMin && foil1Min < foil2Min ==> ExemplarChoice(targetMin, foil1Min, foil2Min) == Foil1
    ensures foil2Min < targetMin && foil2Min < foil1Min ==> ExemplarChoice(targetMin, foil1Min, foil2Min) == Foil2
    ensures TiedForNearest(targetMin, foil1Min, foil2Min) ==> ExemplarChoice(targetMin, foil1Min, foil2Min) == Foil2
  {
  }

  /** The entry learning_exemplar appends; the recorded CorrRes plays no part. */
  function JudgeExemplar(targetDists: seq<real>, foil1Dists: seq<real>, foil2Dists: seq<real>): (a: Answer)
    requires targetDists != [] && foil1Dists != [] && foil2Dists != []
    ensures a.Picked? && (a.mark == Correct <==> a.pick == Target)
  {
    var pick := ExemplarChoice(Min(targetDists), Min(foil1Dists), Min(foil2Dists));
    Picked(if pick == Target then Correct else Incorrect, pick)
  }

  /**
   * A learning-exemplar trial is marked correct exactly when some reference image
   * is strictly nearer the target than every reference distance of either foil.
   */
  lemma ExemplarCorrectIff(targetDists: seq<real>, foil1Dists: seq<real>, foil2Dists: seq<real>)
    requires targetDists != [] && foil1Dists != [] && foil2Dists != []
    ensures JudgeExemplar(targetDists, foil1Dists, foil2Dists).mark == Correct <==>
            exists i :: 0 <= i < |targetDists| &&
              (forall j :: 0 <= j < |foil1Dists| ==> targetDists[i] < foil1Dists[j]) &&
              (forall j :: 0 <= j < |foil2Dists| ==> targetDists[i] < foil2Dists[j])
  {
    var t, f1, f2 := Min(targetDists), Min(foil1Dists), Min(foil2Dists);
    if t < f1 && t < f2 {
      var i :| 0 <= i < |targetDists| && targetDists[i] == t;
      assert forall j :: 0 <= j < |foil1Dists| ==> targetDists[i] < foil1Dists[j];
      assert forall j :: 0 <= j < |foil2Dists| ==> targetDists[i] < foil2Dists[j];
    } else {
      forall i | 0 <= i < |targetDists|
        ensures !((forall j :: 0 <= j < |foil1Dists| ==> targetDists[i] < foil1Dists[j]) &&
                  (forall j :: 0 <= j < |foil2Dists| ==> targetDists[i] < foil2Dists[j]))
      {
        var j1 :| 0 <= j1 < |foil1Dists| && foil1Dists[j1] == f1;
        var j2 :| 0 <= j2 < |foil2Dists| && foil2Dists[j2] == f2;
      }
    }
  }

  /** The entry three_ACF and many_oddball append: correct when int(CorrRes) equals the choice. */
  function JudgeChoice(corrRes: string, choice: int): (r: Result<Answer>)
    ensures r.Failure? <==> ParseInt(corrRes).None?
    ensures r.Failure? ==> r.error == NotAnInteger(corrRes)
    ensures r.Success? ==> r.value.Chosen? && r.value.choice == choice
    ensures r.Success? ==> (r.value.mark == Correct <==> ParseInt(corrRes) == Some(choice))
  {
    match ParseInt(corrRes)
    case None => Failure(NotAnInteger(corrRes))
    case Some(n) => Success(Chosen(if n == choice then Correct else Incorrect, choice))
  }

  /** euc_correct_total as the loops keep it: the number of 'correct' entries. */
  function CountCorrect(answers: seq<Answer>): (n: nat)
    ensures n <= |answers|
    decreases |answers|
  {
    if answers == [] then 0
    else CountCorrect(answers[..|answers| - 1]) + (if answers[|answers| - 1].mark == Correct then 1 else 0)
  }

  /** Every trial is correct exactly when the correct total reaches the trial total. */
  lemma {:induction false} CountCorrectAll(answers: seq<Answer>)
    ensures CountCorrect(answers) == |answers| <==> forall k :: 0 <= k < |answers| ==> answers[k].mark == Correct
    decreases |answers|
  {
    if answers != [] {
      var prefix := answers[..|answers| - 1];
      CountCorrectAll(prefix);
      assert forall k :: 0 <= k < |prefix| ==> prefix[k] == answers[k];
    }
  }

  /** No trial is correct exactly when the correct total is zero. */
  lemma {:induction false} CountCorrectNone(answers: seq<Answer>)
    ensures CountCorrect(answers) == 0 <==> forall k :: 0 <= k < |answers| ==> answers[k].mark == Incorrect
    decreases |answers|
  {
    if answers != [] {
      var prefix := answers[..|answers| - 1];
      CountCorrectNone(prefix);
      assert forall k :: 0 <= k < |prefix| ==> prefix[k] == answers[k];
    }
  }

  /** The worked cases: 3AFC [0.5, 0.9, 0.3] picks 3; oddball (0.9, 0.9, 0.1) picks 1; exemplar (0.2, 0.5, 0.6) picks the target. */
  lemma DecisionExamples()
    ensures ThreeAcfChoice(0.5, 0.9, 0.3) == 3
    ensures OddballChoice(0.9, 0.9, 0.1) == 1
    ensures ExemplarChoice(0.2, 0.5, 0.6) == Target
    ensures JudgeExemplar([0.2], [0.5], [0.6]) == Picked(Correct, Target)
  {
  }
}
