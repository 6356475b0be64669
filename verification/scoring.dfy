/**
 * The four scorers of multi_hub_rep.py: same_diff, three_ACF, many_oddball and
 * learning_exemplar. Each builds the trial records with image_sets_maker, walks
 * them once in row order, and returns [euc_correct_total, num_total, answer_set],
 * or raises on the first trial it cannot judge.
 */
module Scoring {
  import opened Outcomes
  import opened Text
  import opened Normalizing
  import opened Decisions
  import opened TrialSets

  /** [euc_correct_total, num_total, answer_set]. */
  datatype Tally = Tally(correct: nat, total: nat, answers: seq<Answer>)

  /** Every record has the layout of one task. */
  predicate AllShaped(tag: Tag, sets: seq<ImageSet>) {
    forall k :: 0 <= k < |sets| ==> Shaped(tag, sets[k])
  }

  /** The loop that appends one entry per trial, in order, until the first trial that raises. */
  function Collect(judged: seq<Result<Answer>>): (r: Result<seq<Answer>>)
    ensures r.Success? ==> |r.value| == |judged|
    decreases |judged|
  {
    if judged == [] then Success([])
    else
      var done :- Collect(judged[..|judged| - 1]);
      var last :- judged[|judged| - 1];
      Success(done + [last])
  }

  /** The walk yields exactly the judged entries, in order, when no trial raises. */
  lemma {:induction false} CollectSuccessIff(judged: seq<Result<Answer>>, answers: seq<Answer>)
    ensures Collect(judged) == Success(answers) <==>
            |answers| == |judged| && forall k :: 0 <= k < |judged| ==> judged[k] == Success(answers[k])
    decreases |judged|
  {
    if judged != [] {
      var n := |judged| - 1;
      var prefix := judged[..n];
      assert forall k :: 0 <= k < n ==> prefix[k] == judged[k];
      if |answers| == |judged| {
        CollectSuccessIff(prefix, answers[..n]);
        assert answers == answers[..n] + [answers[n]];
      } else if Collect(judged).Success? {
        CollectSuccessIff(prefix, Collect(prefix).value);
      }
    }
  }

  /** The walk raises the exception of the first trial that raises. */
  lemma {:induction false} CollectFirstFailure(judged: seq<Result<Answer>>, i: nat)
    requires i < |judged| && judged[i].Failure?
    requires forall k :: 0 <= k < i ==> judged[k].Success?
    ensures Collect(judged) == Failure(judged[i].error)
    decreases |judged|
  {
    var n := |judged| - 1;
    var prefix := judged[..n];
    if i == n {
      var answers := seq(n, k requires 0 <= k < n => judged[k].value);
      CollectSuccessIff(prefix, answers);
    } else {
      CollectFirstFailure(prefix, i);
    }
  }

  /** The walk raises exactly when some trial raises. */
  lemma CollectFails(judged: seq<Result<Answer>>)
    ensures Collect(judged).Failure? <==> exists k :: 0 <= k < |judged| && judged[k].Failure?
  {
    if Collect(judged).Success? {
      CollectSuccessIff(judged, Collect(judged).value);
    } else if forall k :: 0 <= k < |judged| ==> judged[k].Success? {
      var answers := seq(|judged|, k requires 0 <= k < |judged| => judged[k].value);
      CollectSuccessIff(judged, answers);
    }
  }

  /** One more round of the walk: it appends the next entry, unless a trial has raised. */
  lemma CollectStep(judged: seq<Result<Answer>>, i: nat)
    requires i < |judged|
    ensures Collect(judged[..i + 1]) ==
              if Collect(judged[..i]).Failure? then Collect(judged[..i])
              else if judged[i].Failure? then Failure(judged[i].error)
              else Success(Collect(judged[..i]).value + [judged[i].value])
  {
    assert judged[..i + 1][..i] == judged[..i];
  }

  /** Once a trial raises, the later trials are never judged. */
  lemma {:induction false} CollectStops(judged: seq<Result<Answer>>, i: nat, n: nat)
    requires i <= n <= |judged|
    ensures Collect(judged[..i]).Failure? ==> Collect(judged[..n]) == Collect(judged[..i])
    decreases n
  {
    if i < n {
      CollectStops(judged, i, n - 1);
      CollectStep(judged, n - 1);
    }
  }

  /** A round whose trial is judged appends its entry. */
  lemma CollectExtend(judged: seq<Result<Answer>>, i: nat, answers: seq<Answer>, a: Answer)
    requires i < |judged| && Collect(judged[..i]) == Success(answers) && judged[i] == Success(a)
    ensures Collect(judged[..i + 1]) == Success(answers + [a])
  {
    CollectStep(judged, i);
  }

  /** A round whose trial raises ends the walk with that exception. */
  lemma CollectRaise(judged: seq<Result<Answer>>, i: nat)
    requires i < |judged| && Collect(judged[..i]).Success? && judged[i].Failure?
    ensures Collect(judged) == Failure(judged[i].error)
  {
    CollectStep(judged, i);
    CollectStops(judged, i + 1, |judged|);
    assert judged[..|judged|] == judged;
  }

  /** The first i entries of a sequence, then entry i, are its first i + 1 entries. */
  lemma PrefixExtend<T>(s: seq<T>, i: nat)
    requires i < |s|
    ensures s[..i + 1] == s[..i] + [s[i]]
  {
  }

  /** Appending an entry adds one to the correct total exactly when the entry is correct. */
  lemma CountCorrectAppend(answers: seq<Answer>, a: Answer)
    ensures CountCorrect(answers + [a]) == CountCorrect(answers) + (if a.mark == Correct then 1 else 0)
  {
    assert (answers + [a])[..|answers|] == answers;
  }

  /** A tally is internally consistent: one entry per trial, and the correct total counts the correct entries. */
  predicate Consistent(t: Tally, trials: nat) {
    && t.total == trials
    && |t.answers| == trials
    && t.correct == CountCorrect(t.answers)
    && t.correct <= t.total
  }

  // ---------------------------------------------------------------- same_diff

  /** all_euc_comparisons: the distance of every pair, in trial order. */
  function PairDistances(sets: seq<ImageSet>): (ds: seq<real>)
    requires AllShaped(SameDiffTask, sets)
    ensures |ds| == |sets|
  {
    seq(|sets|, k requires 0 <= k < |sets| => sets[k].dist)
  }

  /** The judgement of every pair against its normalised distance. */
  function SameDiffJudgements(sets: seq<ImageSet>, normed: seq<real>): seq<Result<Answer>>
    requires AllShaped(SameDiffTask, sets) && |normed| == |sets|
  {
    seq(|sets|, k requires 0 <= k < |sets| => JudgeSameDiff(sets[k].corrRes, normed[k]))
  }

  /** What same_diff's loops make of the pair records. */
  function SameDiffTally(sets: seq<ImageSet>): (r: Result<Tally>)
    requires AllShaped(SameDiffTask, sets)
    ensures r.Success? ==> Consistent(r.value, |sets|)
  {
    var normed :- NormalizeOutcome(PairDistances(sets), 0.0, 1.0);
    var answers :- Collect(SameDiffJudgements(sets, normed));
    Success(Tally(CountCorrect(answers), |sets|, answers))
  }

  /** What same_diff returns, or the exception it raises. */
  function SameDiffScore<R>(rows: seq<seq<string>>, names: seq<string>, reps: seq<R>,
                            dist: (R, R) -> real): (r: Result<Tally>)
    ensures ImageSets(rows, names, reps, dist, SameDiffTask).Failure? ==> r == ImageSets(rows, names, reps, dist, SameDiffTask).PropagateFailure()
    ensures r.Success? ==> Consistent(r.value, DataRows(|rows|))
  {
    var sets :- ImageSets(rows, names, reps, dist, SameDiffTask);
    SameDiffTally(sets)
  }

  /** same_diff: collects the distances, normalises them, then judges each pair in order. */
  method SameDiff<R>(names: seq<string>, reps: seq<R>, dist: (R, R) -> real,
                     rows: seq<seq<string>>) returns (r: Result<Tally>)
    ensures r == SameDiffScore(rows, names, reps, dist)
  {
    var imageSets :- ImageSetsMaker(rows, names, reps, dist, SameDiffTask);
    var allEucComparisons: seq<real> := [];
    for i := 0 to |imageSets|
      invariant allEucComparisons == PairDistances(imageSets)[..i]
    {
      var eucFactor := imageSets[i].dist;
      allEucComparisons := allEucComparisons + [eucFactor];
    }
    assert allEucComparisons == PairDistances(imageSets);
    var normedEucs :- Normalize(allEucComparisons, 0.0, 1.0);
    r := JudgePairs(imageSets, normedEucs);
  }

  /** same_diff's second loop: thresholds each normalised distance and checks it against the recorded answer. */
  method JudgePairs(imageSets: seq<ImageSet>, normedEucs: seq<real>) returns (r: Result<Tally>)
    requires AllShaped(SameDiffTask, imageSets) && |normedEucs| == |imageSets|
    ensures r == (var answers :- Collect(SameDiffJudgements(imageSets, normedEucs));
                  Success(Tally(CountCorrect(answers), |imageSets|, answers)))
  {
    ghost var judged := SameDiffJudgements(imageSets, normedEucs);
    var eucCorrectTotal: nat, numTotal: nat, answerSet: seq<Answer> := 0, 0, [];
    var idx := 0;
    while idx < |normedEucs|
      invariant idx <= |normedEucs| && numTotal == idx
      invariant Collect(judged[..idx]) == Success(answerSet)
      invariant eucCorrectTotal == CountCorrect(answerSet)
    {
      var eucScore := normedEucs[idx];
      var eucResult := SameDiffVerdict(eucScore);
      var recorded := imageSets[idx].corrRes;
      assert judged[idx] == JudgeSameDiff(recorded, eucScore);
      var eucAns: Mark;
      if recorded == eucResult.Label() {
        eucAns := Correct;
      } else {
        var code := ParseInt(recorded);
        if code.None? {
          CollectRaise(judged, idx);
          return Failure(NotAnInteger(recorded));
        }
        eucAns := if code.value == eucResult.Code() then Correct else Incorrect;
      }
      CollectExtend(judged, idx, answerSet, Scored(eucScore, eucAns));
      if eucAns == Correct {
        eucCorrectTotal := eucCorrectTotal + 1;
      }
      CountCorrectAppend(answerSet, Scored(eucScore, eucAns));
      answerSet := answerSet + [Scored(eucScore, eucAns)];
      numTotal := numTotal + 1;
      idx := idx + 1;
    }
    assert judged[..|judged|] == judged;
    return Success(Tally(eucCorrectTotal, numTotal, answerSet));
  }

  // ---------------------------------------------------------------- three_ACF

  /** The judgement of every three-alternative trial. */
  function ThreeAcfJudgements(sets: seq<ImageSet>): seq<Result<Answer>>
    requires AllShaped(ThreeAcfTask, sets)
  {
    seq(|sets|, k requires 0 <= k < |sets| =>
      JudgeChoice(sets[k].corrRes, ThreeAcfChoice(sets[k].dist1, sets[k].dist2, sets[k].dist3)))
  }

  /** What the loop makes of the records. */
  function ThreeAcfTally(sets: seq<ImageSet>): (r: Result<Tally>)
    requires AllShaped(ThreeAcfTask, sets)
    ensures r.Success? ==> Consistent(r.value, |sets|)
  {
    var answers :- Collect(ThreeAcfJudgements(sets));
    Success(Tally(CountCorrect(answers), |sets|, answers))
  }

  /** What three_ACF returns, or the exception it raises. */
  function ThreeAcfScore<R>(rows: seq<seq<string>>, names: seq<string>, reps: seq<R>,
                            dist: (R, R) -> real): (r: Result<Tally>)
    ensures ImageSets(rows, names, reps, dist, ThreeAcfTask).Failure? ==> r == ImageSets(rows, names, reps, dist, ThreeAcfTask).PropagateFailure()
    ensures r.Success? ==> Consistent(r.value, DataRows(|rows|))
  {
    var sets :- ImageSets(rows, names, reps, dist, ThreeAcfTask);
    ThreeAcfTally(sets)
  }

  /** three_ACF: picks the candidate nearest the target and compares it with int(CorrRes). */
  method ThreeAcf<R>(names: seq<string>, reps: seq<R>, dist: (R, R) -> real,
                     rows: seq<seq<string>>) returns (r: Result<Tally>)
    ensures r == ThreeAcfScore(rows, names, reps, dist)
  {
    var imageSets :- ImageSetsMaker(rows, names, reps, dist, ThreeAcfTask);
    ghost var judged := ThreeAcfJudgements(imageSets);
    var eucCorrectTotal: nat, numTotal: nat, answerSet: seq<Answer> := 0, 0, [];
    for i := 0 to |imageSets|
      invariant numTotal == i
      invariant Collect(judged[..i]) == Success(answerSet)
      invariant eucCorrectTotal == CountCorrect(answerSet)
    {
      var trial := imageSets[i];
      var choice := ThreeAcfChoice(trial.dist1, trial.dist2, trial.dist3);
      var recorded := ParseInt(trial.corrRes);
      assert judged[i] == JudgeChoice(trial.corrRes, choice);
      if recorded.None? {
        CollectRaise(judged, i);
        return Failure(NotAnInteger(trial.corrRes));
      }
      var answer: Mark;
      if recorded.value == choice {
        answer := Correct;
        eucCorrectTotal := eucCorrectTotal + 1;
      } else {
        answer := Incorrect;
      }
      CollectExtend(judged, i, answerSet, Chosen(answer, choice));
      CountCorrectAppend(answerSet, Chosen(answer, choice));
      answerSet := answerSet + [Chosen(answer, choice)];
      numTotal := numTotal + 1;
    }
    assert judged[..|judged|] == judged;
    return Success(Tally(eucCorrectTotal, numTotal, answerSet));
  }

  // ------------------------------------------------------------- many_oddball

  /** The judgement of every oddball trial. */
  function OddballJudgements(sets: seq<ImageSet>): seq<Result<Answer>>
    requires AllShaped(OddballTask, sets)
  {
    seq(|sets|, k requires 0 <= k < |sets| =>
      JudgeChoice(sets[k].corrRes, OddballChoice(sets[k].dist12, sets[k].dist13, sets[k].dist23)))
  }

  /** What the loop makes of the records. */
  function OddballTally(sets: seq<ImageSet>): (r: Result<Tally>)
    requires AllShaped(OddballTask, sets)
    ensures r.Success? ==> Consistent(r.value, |sets|)
  {
    var answers :- Collect(OddballJudgements(sets));
    Success(Tally(CountCorrect(answers), |sets|, answers))
  }

  /** What many_oddball returns, or the exception it raises. */
  function OddballScore<R>(rows: seq<seq<string>>, names: seq<string>, reps: seq<R>,
                           dist: (R, R) -> real): (r: Result<Tally>)
    ensures ImageSets(rows, names, reps, dist, OddballTask).Failure? ==> r == ImageSets(rows, names, reps, dist, OddballTask).PropagateFailure()
    ensures r.Success? ==> Consistent(r.value, DataRows(|rows|))
  {
    var sets :- ImageSets(rows, names, reps, dist, OddballTask);
    OddballTally(sets)
  }

  /** many_oddball: picks the image outside the closest pair and compares it with int(CorrRes). */
  method ManyOddball<R>(names: seq<string>, reps: seq<R>, dist: (R, R) -> real,
                        rows: seq<seq<string>>) returns (r: Result<Tally>)
    ensures r == OddballScore(rows, names, reps, dist)
  {
    var imageSets :- ImageSetsMaker(rows, names, reps, dist, OddballTask);
    ghost var judged := OddballJudgements(imageSets);
    var eucCorrectTotal: nat, numTotal: nat, answerSet: seq<Answer> := 0, 0, [];
    for i := 0 to |imageSets|
      invariant numTotal == i
      invariant Collect(judged[..i]) == Success(answerSet)
      invariant eucCorrectTotal == CountCorrect(answerSet)
    {
      var trial := imageSets[i];
      var choice := OddballChoice(trial.dist12, trial.dist13, trial.dist23);
      var recorded := ParseInt(trial.corrRes);
      assert judged[i] == JudgeChoice(trial.corrRes, choice);
      if recorded.None? {
        CollectRaise(judged, i);
        return Failure(NotAnInteger(trial.corrRes));
      }
      var answer: Mark;
      if recorded.value == choice {
        answer := Correct;
        eucCorrectTotal := eucCorrectTotal + 1;
      } else {
        answer := Incorrect;
      }
      CollectExtend(judged, i, answerSet, Chosen(answer, choice));
      CountCorrectAppend(answerSet, Chosen(answer, choice));
      answerSet := answerSet + [Chosen(answer, choice)];
      numTotal := numTotal + 1;
    }
    assert judged[..|judged|] == judged;
    return Success(Tally(eucCorrectTotal, numTotal, answerSet));
  }

  // -------------------------------------------------------- learning_exemplar

  /** The entry of every learning-exemplar trial; judging one never raises. */
  function ExemplarAnswers(sets: seq<ImageSet>): (answers: seq<Answer>)
    requires AllShaped(ExemplarTask, sets)
    ensures |answers| == |sets|
  {
    seq(|sets|, k requires 0 <= k < |sets| =>
      JudgeExemplar(sets[k].targetDists, sets[k].foil1Dists, sets[k].foil2Dists))
  }

  /** What the loop makes of the records. */
  function ExemplarTally(sets: seq<ImageSet>): (t: Tally)
    requires AllShaped(ExemplarTask, sets)
    ensures Consistent(t, |sets|)
  {
    var answers := ExemplarAnswers(sets);
    Tally(CountCorrect(answers), |sets|, answers)
  }

  /** What learning_exemplar returns, or the exception it raises. */
  function ExemplarScore<R>(rows: seq<seq<string>>, names: seq<string>, reps: seq<R>,
                            dist: (R, R) -> real): (r: Result<Tally>)
    ensures r.Success? <==> ImageSets(rows, names, reps, dist, ExemplarTask).Success?
    ensures r.Failure? ==> r == ImageSets(rows, names, reps, dist, ExemplarTask).PropagateFailure()
    ensures r.Success? ==> Consistent(r.value, DataRows(|rows|))
  {
    var sets :- ImageSets(rows, names, reps, dist, ExemplarTask);
    Success(ExemplarTally(sets))
  }

  /** learning_exemplar: compares the nearest reference distance of the target and of each foil. */
  method LearningExemplar<R>(names: seq<string>, reps: seq<R>, dist: (R, R) -> real,
                             rows: seq<seq<string>>) returns (r: Result<Tally>)
    ensures r == ExemplarScore(rows, names, reps, dist)
  {
    var imageSets :- ImageSetsMaker(rows, names, reps, dist, ExemplarTask);
    var tally := JudgeExemplars(imageSets);
    return Success(tally);
  }

  /** The scoring loop of learning_exemplar over the records image_sets_maker built. */
  method JudgeExemplars(imageSets: seq<ImageSet>) returns (t: Tally)
    requires AllShaped(ExemplarTask, imageSets)
    ensures t == ExemplarTally(imageSets)
  {
    ghost var answers := ExemplarAnswers(imageSets);
    var eucCorrectTotal: nat, numTotal: nat, answerSet: seq<Answer> := 0, 0, [];
    for i := 0 to |imageSets|
      invariant numTotal == i
      invariant answerSet == answers[..i]
      invariant eucCorrectTotal == CountCorrect(answerSet)
    {
      var trial := imageSets[i];
      var targetEucMin := Min(trial.targetDists);
      var foil1EucMin := Min(trial.foil1Dists);
      var foil2EucMin := Min(trial.foil2Dists);
      var choice := ExemplarChoice(targetEucMin, foil1EucMin, foil2EucMin);
      var answer: Mark;
      if choice == Target {
        answer := Correct;
        eucCorrectTotal := eucCorrectTotal + 1;
      } else {
        answer := Incorrect;
      }
      assert answers[i] == Picked(answer, choice);
      PrefixExtend(answers, i);
      CountCorrectAppend(answerSet, Picked(answer, choice));
      answerSet := answerSet + [Picked(answer, choice)];
      numTotal := numTotal + 1;
    }
    assert answerSet == answers;
    return Tally(eucCorrectTotal, numTotal, answerSet);
  }

  // ------------------------------------------------------------ properties

  /** A CSV with no row after the header makes same_diff raise, since max([]) raises. */
  lemma SameDiffEmptyFails<R>(rows: seq<seq<string>>, names: seq<string>, reps: seq<R>, dist: (R, R) -> real)
    requires |rows| <= 1
    ensures SameDiffScore(rows, names, reps, dist) == Failure(EmptySequence)
  {
  }

  /** The other three scorers return an empty tally for a CSV with no row after the header. */
  lemma ChoiceScorersEmpty<R>(rows: seq<seq<string>>, names: seq<string>, reps: seq<R>, dist: (R, R) -> real)
    requires |rows| <= 1
    ensures ThreeAcfScore(rows, names, reps, dist) == Success(Tally(0, 0, []))
    ensures OddballScore(rows, names, reps, dist) == Success(Tally(0, 0, []))
    ensures ExemplarScore(rows, names, reps, dist) == Success(Tally(0, 0, []))
  {
    assert Collect([]) == Success([]);
  }

  /** When every pair is at the same distance, same_diff divides by zero. */
  lemma SameDiffFlatFails(sets: seq<ImageSet>)
    requires AllShaped(SameDiffTask, sets)
    requires sets != [] && forall k :: 0 <= k < |sets| ==> sets[k].dist == sets[0].dist
    ensures SameDiffTally(sets) == Failure(ZeroDivision)
  {
    var ds := PairDistances(sets);
    var i :| 0 <= i < |ds| && ds[i] == Min(ds);
    var j :| 0 <= j < |ds| && ds[j] == Max(ds);
  }

  /** Entry k of a successful same_diff run is the judgement of pair k against its normalised distance. */
  lemma SameDiffEntryAt(sets: seq<ImageSet>, k: nat)
    requires AllShaped(SameDiffTask, sets)
    requires SameDiffTally(sets).Success? && k < |SameDiffTally(sets).value.answers|
    ensures var ds := PairDistances(sets);
            && k < |sets| && ds != [] && Min(ds) < Max(ds)
            && JudgeSameDiff(sets[k].corrRes, Normalized(ds, 0.0, 1.0)[k]) == Success(SameDiffTally(sets).value.answers[k])
  {
    var ds := PairDistances(sets);
    var normed := Normalized(ds, 0.0, 1.0);
    var judged := SameDiffJudgements(sets, normed);
    var answers := SameDiffTally(sets).value.answers;
    assert Collect(judged) == Success(answers);
    CollectSuccessIff(judged, answers);
    assert judged[k] == JudgeSameDiff(sets[k].corrRes, normed[k]);
  }

  /**
   * Trial k of a successful same_diff run: the score is the pair's distance rescaled
   * onto [0, 1], the verdict is 'same' exactly when the distance lies below the
   * midpoint of the batch's smallest and largest distance, and the entry is correct
   * exactly when the recorded answer is the verdict's word or an integer equal to its code.
   */
  lemma SameDiffAnswerAt(sets: seq<ImageSet>, k: nat)
    requires AllShaped(SameDiffTask, sets)
    requires SameDiffTally(sets).Success? && k < |SameDiffTally(sets).value.answers|
    ensures var ds := PairDistances(sets);
            var a := SameDiffTally(sets).value.answers[k];
            && k < |sets| && ds != [] && Min(ds) < Max(ds)
            && a.Scored? && a.score == Normalized(ds, 0.0, 1.0)[k]
            && 0.0 <= a.score <= 1.0
            && (SameDiffVerdict(a.score) == Same <==> sets[k].dist < (Min(ds) + Max(ds)) / 2.0)
            && (a.mark == Correct <==>
                  sets[k].corrRes == SameDiffVerdict(a.score).Label()
                  || ParseInt(sets[k].corrRes) == Some(SameDiffVerdict(a.score).Code()))
  {
    SameDiffEntryAt(sets, k);
    var ds := PairDistances(sets);
    JudgeSameDiffMeaning(sets[k].corrRes, Normalized(ds, 0.0, 1.0)[k]);
    assert sets[k].dist == ds[k];
    NormalizedRange(ds, 0.0, 1.0, k);
    NormalizedBelowHalf(ds, k);
  }

  /** The closest pair of the batch is judged 'same' and the farthest 'diff'. */
  lemma SameDiffExtremes(sets: seq<ImageSet>, k: nat)
    requires AllShaped(SameDiffTask, sets)
    requires SameDiffTally(sets).Success? && k < |SameDiffTally(sets).value.answers|
    ensures var ds := PairDistances(sets);
            var a := SameDiffTally(sets).value.answers[k];
            && k < |ds| && a.Scored?
            && (ds[k] == Min(ds) ==> a.score == 0.0 && SameDiffVerdict(a.score) == Same)
            && (ds[k] == Max(ds) ==> a.score == 1.0 && SameDiffVerdict(a.score) == Diff)
  {
    SameDiffAnswerAt(sets, k);
    NormalizedEndpoints(PairDistances(sets), 0.0, 1.0, k);
  }

  /**
   * Once the distances can be normalised, same_diff raises exactly when some recorded
   * answer is not the verdict's word and is not an integer.
   */
  lemma SameDiffFailsIff(sets: seq<ImageSet>)
    requires AllShaped(SameDiffTask, sets)
    requires PairDistances(sets) != [] && Min(PairDistances(sets)) < Max(PairDistances(sets))
    ensures SameDiffTally(sets).Failure? <==>
              exists k :: 0 <= k < |sets| &&
                sets[k].corrRes != SameDiffVerdict(Normalized(PairDistances(sets), 0.0, 1.0)[k]).Label() &&
                ParseInt(sets[k].corrRes).None?
  {
    var normed := Normalized(PairDistances(sets), 0.0, 1.0);
    var judged := SameDiffJudgements(sets, normed);
    CollectFails(judged);
    forall k | 0 <= k < |sets|
      ensures judged[k].Failure? <==> sets[k].corrRes != SameDiffVerdict(normed[k]).Label() && ParseInt(sets[k].corrRes).None?
    {
      assert judged[k] == JudgeSameDiff(sets[k].corrRes, normed[k]);
      JudgeSameDiffMeaning(sets[k].corrRes, normed[k]);
    }
  }

  /**
   * Trial k of a successful three_ACF run: the choice is the 1-based position of a
   * nearest candidate to the target, and the entry is correct exactly when int(CorrRes)
   * equals it.
   */
  lemma ThreeAcfAnswerAt(sets: seq<ImageSet>, k: nat)
    requires AllShaped(ThreeAcfTask, sets)
    requires ThreeAcfTally(sets).Success? && k < |ThreeAcfTally(sets).value.answers|
    ensures var a := ThreeAcfTally(sets).value.answers[k];
            && k < |sets| && a.Chosen?
            && a.choice == ThreeAcfChoice(sets[k].dist1, sets[k].dist2, sets[k].dist3)
            && 1 <= a.choice <= 3
            && (a.mark == Correct <==> ParseInt(sets[k].corrRes) == Some(a.choice))
  {
    var answers := ThreeAcfTally(sets).value.answers;
    CollectSuccessIff(ThreeAcfJudgements(sets), answers);
    assert ThreeAcfJudgements(sets)[k] == Success(answers[k]);
  }

  /** three_ACF raises, once the records exist, exactly when some CorrRes is not an integer. */
  lemma ThreeAcfFailsIff(sets: seq<ImageSet>)
    requires AllShaped(ThreeAcfTask, sets)
    ensures ThreeAcfTally(sets).Failure? <==> exists k :: 0 <= k < |sets| && ParseInt(sets[k].corrRes).None?
  {
    var judged := ThreeAcfJudgements(sets);
    CollectFails(judged);
    assert forall k :: 0 <= k < |sets| ==> (judged[k].Failure? <==> ParseInt(sets[k].corrRes).None?);
  }

  /**
   * Trial k of a successful many_oddball run: the choice is the image outside a
   * closest pair, and the entry is correct exactly when int(CorrRes) equals it.
   */
  lemma OddballAnswerAt(sets: seq<ImageSet>, k: nat)
    requires AllShaped(OddballTask, sets)
    requires OddballTally(sets).Success? && k < |OddballTally(sets).value.answers|
    ensures var a := OddballTally(sets).value.answers[k];
            && k < |sets| && a.Chosen?
            && a.choice == OddballChoice(sets[k].dist12, sets[k].dist13, sets[k].dist23)
            && 1 <= a.choice <= 3
            && (a.mark == Correct <==> ParseInt(sets[k].corrRes) == Some(a.choice))
  {
    var answers := OddballTally(sets).value.answers;
    CollectSuccessIff(OddballJudgements(sets), answers);
    assert OddballJudgements(sets)[k] == Success(answers[k]);
  }

  /** many_oddball raises, once the records exist, exactly when some CorrRes is not an integer. */
  lemma OddballFailsIff(sets: seq<ImageSet>)
    requires AllShaped(OddballTask, sets)
    ensures OddballTally(sets).Failure? <==> exists k :: 0 <= k < |sets| && ParseInt(sets[k].corrRes).None?
  {
    var judged := OddballJudgements(sets);
    CollectFails(judged);
    assert forall k :: 0 <= k < |sets| ==> (judged[k].Failure? <==> ParseInt(sets[k].corrRes).None?);
  }

  /**
   * Trial k of learning_exemplar: the entry is correct exactly when some set6 image
   * is strictly nearer the target than every set6 distance of either foil.
   */
  lemma ExemplarAnswerAt(sets: seq<ImageSet>, k: nat)
    requires AllShaped(ExemplarTask, sets) && k < |sets|
    ensures var s := sets[k];
            var a := ExemplarTally(sets).answers[k];
            && a.Picked?
            && a.pick == ExemplarChoice(Min(s.targetDists), Min(s.foil1Dists), Min(s.foil2Dists))
            && (a.mark == Correct <==>
                  exists i :: 0 <= i < |s.targetDists| &&
                    (forall j :: 0 <= j < |s.foil1Dists| ==> s.targetDists[i] < s.foil1Dists[j]) &&
                    (forall j :: 0 <= j < |s.foil2Dists| ==> s.targetDists[i] < s.foil2Dists[j]))
  {
    var s := sets[k];
    ExemplarCorrectIff(s.targetDists, s.foil1Dists, s.foil2Dists);
  }
}
