# Trial scoring of multi_hub_rep.py, in Dafny

This project models the part of `python_scripts/multi_hub_rep.py` that scores a
network's image representations on four behavioural tasks, and proves what that
scoring does.

- **`image_sets_maker`** reads the rows of a trial CSV. It skips the header row and,
  for every data row, builds one trial record: the image names, their positions in
  `image_names`, the distances between their representations, and the recorded answer
  `CorrRes`. Image names are built by `TrialSets.TrialImage`, the f-string
  `trial{row_idx}{suffix}`. The task tags are `2` (same/different), `3` (three-alternative
  forced choice), `'odd'` (oddball) and `'le'` (learning exemplar). Any other tag raises
  `ValueError`.
- **`normalize`** min-max rescales a list of distances onto `[t_min, t_max]`
  (`Normalizing.Rescale` is its formula for one value).
- **The four scorers** each walk the records in row order. They append one entry per
  trial to `answer_set`, count the correct ones, and return
  `[euc_correct_total, num_total, answer_set]`:
  - **`same_diff`** thresholds the normalised distance at 0.5;
  - **`three_ACF`** picks the candidate nearest the target;
  - **`many_oddball`** picks the image outside the closest pair;
  - **`learning_exemplar`** compares the nearest of six reference distances for the
    target and each of two foils.

The Dafny follows the source's shape.

- Every loop of the source is a `method` with a `while` or `for` loop and its
  invariants:
  - `Normalizing.Normalize`;
  - `TrialSets.ImageSetsMaker` and `TrialSets.MeasureAgainstSet6`;
  - `Scoring.SameDiff` (with `Scoring.JudgePairs`), `Scoring.ThreeAcf`,
    `Scoring.ManyOddball` and `Scoring.LearningExemplar` (with `Scoring.JudgeExemplars`).
- Each method is proved equal to a specification function: `NormalizeOutcome`,
  `ImageSets`, `MeasureReferences`, `SameDiffScore`, `ThreeAcfScore`, `OddballScore`
  and `ExemplarScore`.
- The lemmas state the source's promises about those functions.

Every exception the source can raise on these paths is modelled as a `Failure`, in the
order Python raises it. The error kinds are:

| error | where Python raises it |
|---|---|
| `CellMissing` | `row[i]` raises `IndexError` |
| `NameNotFound` | `image_names.index` raises `ValueError` |
| `RepMissing` | `reps[i]` raises `IndexError` |
| `UnknownTask` | an unknown `num_sets` |
| `NotAnInteger` | `int()` of a non-numeric `CorrRes` |
| `EmptySequence` | `max([])` |
| `ZeroDivision` | a batch of equal distances |

Inputs and abstractions:

- The CSV arrives already split into rows of cells (`seq<seq<string>>`).
- The representations are a sequence `reps: seq<R>` aligned with `image_names`.
- `euclidean_distance` is the parameter `dist: (R, R) -> real`. Distances are exact reals.

Modules and files:

| module | file | contents |
|---|---|---|
| `Outcomes` | `outcomes.dfy` | errors, `Option` and `Result` |
| `Text` | `text.dfy` | `str(n)`, `int(s)`, `str.replace('.jpg', '.tif')`, `list.index` and negative row indexing |
| `Normalizing` | `normalize.dfy` | `normalize` |
| `Decisions` | `decisions.dfy` | the per-trial decision rules |
| `TrialSets` | `trial_sets.dfy` | `image_sets_maker` |
| `Scoring` | `scoring.dfy` | the four scorers |

Two details of the entries and of the choices:

- **Entries.** `same_diff` appends `[euc_score, euc_ans]`: the normalised score and
  `'correct'`/`'incorrect'` (multi_hub_rep.py:269). The other three scorers append
  `[answer, choice]`.
- **Ties.** Ties follow the code's fall-through order:
  - `three_ACF` gives a tie to the lowest position (multi_hub_rep.py:154-162);
  - `many_oddball` tries the pairs in the order (1,2), (1,3), (2,3)
    (multi_hub_rep.py:105-113);
  - `learning_exemplar` gives every tie for the nearest distance to `'foil2'`, even
    when foil2 is the farthest candidate (multi_hub_rep.py:81-90).

## Model

| member | source | states |
|---|---|---|
| Text.NatToString | python_scripts/multi_hub_rep.py:323-326 | the row number in a trial image name is a non-empty run of decimal digits |
| Text.ParseIntOfNatToString | python_scripts/multi_hub_rep.py:323-326 | int(str(n)) == n, so a row number written into a name reads back unchanged |
| Text.NatToStringInjective | python_scripts/multi_hub_rep.py:323-326 | different row numbers are written differently |
| Text.ReplaceJpg | python_scripts/multi_hub_rep.py:313-314 | replacing '.jpg' by '.tif' keeps the length of the name |
| Text.ReplaceJpgWithoutMatch | python_scripts/multi_hub_rep.py:313-314 | a name without '.jpg' is left unchanged |
| Text.ReplaceJpgExtension | python_scripts/multi_hub_rep.py:313-314 | stem + '.jpg' becomes stem + '.tif' when the stem holds no '.jpg' |
| Text.ParseInt | python_scripts/multi_hub_rep.py:117 | int() of an empty string raises, and so does any string holding a character other than a digit, tab, line feed, vertical tab, form feed, carriage return, space, '+' or '-'; a run of decimal digits reads as its value, and '-' followed by digits as its negation |
| Text.ParseIntExamples | python_scripts/multi_hub_rep.py:117 | int(' -7 ') is -7; int() raises on chr(28) followed by '1', on '1 2' and on 'same' |
| Text.Lookup | python_scripts/multi_hub_rep.py:316-317 | image_names.index raises ValueError naming the image exactly when it is absent; otherwise it gives the first position holding the name |
| Text.Cell | python_scripts/multi_hub_rep.py:353-355 | reading a missing cell raises IndexError for that position |
| Text.CellInRange | python_scripts/multi_hub_rep.py:353-355 | every position from -len(row) to len(row) - 1 reads its cell, a negative position counting from the end |
| Text.CellOutOfRange | python_scripts/multi_hub_rep.py:353-355 | every other position raises IndexError |
| Text.IndexOf | python_scripts/multi_hub_rep.py:316-317 | list.index fails exactly when the name is absent; otherwise it gives the first position holding the name |
| Normalizing.Min | python_scripts/multi_hub_rep.py:186 | min() of a non-empty list is an element no larger than any other |
| Normalizing.Max | python_scripts/multi_hub_rep.py:186 | max() of a non-empty list is an element no smaller than any other |
| Normalizing.MinAtMostMax | python_scripts/multi_hub_rep.py:186 | the minimum of a batch never exceeds its maximum |
| Normalizing.Normalized | python_scripts/multi_hub_rep.py:187-189 | one rescaled value per input |
| Normalizing.NormalizeOutcome | python_scripts/multi_hub_rep.py:183-190 | an empty batch raises (max of an empty list); otherwise normalize raises exactly when the minimum equals the maximum, and then by dividing by zero; a successful result has one value per input |
| Normalizing.Normalize | python_scripts/multi_hub_rep.py:183-190 | the appending loop returns exactly NormalizeOutcome, errors included |
| Normalizing.RescaleMonotone | python_scripts/multi_hub_rep.py:188 | Rescale, the formula (x - min) * (t_max - t_min) / (max - min) + t_min of line 188, is monotone when t_min <= t_max |
| Normalizing.RescaleStrictlyMonotone | python_scripts/multi_hub_rep.py:188 | Rescale is strictly monotone when t_min < t_max |
| Normalizing.RescaleEnds | python_scripts/multi_hub_rep.py:188 | Rescale sends the minimum to t_min and the maximum to t_max |
| Normalizing.RescaleMidpoint | python_scripts/multi_hub_rep.py:188 | onto [0, 1], Rescale sends the midpoint of the range to 0.5 |
| Normalizing.RescaleBelowHalf | python_scripts/multi_hub_rep.py:188 | onto [0, 1], Rescale puts a value below 0.5 exactly when it lies below the midpoint of the range |
| Normalizing.NormalizedEndpoints | python_scripts/multi_hub_rep.py:183-190 | the output has the input's length; an entry at the minimum becomes t_min and one at the maximum becomes t_max |
| Normalizing.NormalizedOrder | python_scripts/multi_hub_rep.py:185-189 | with t_min < t_max, output i <= output j exactly when input i <= input j |
| Normalizing.NormalizedRange | python_scripts/multi_hub_rep.py:185-189 | with t_min <= t_max every output lies in [t_min, t_max] |
| Normalizing.NormalizedBelowHalf | python_scripts/multi_hub_rep.py:231-236 | a score normalised onto [0, 1] is below 0.5 exactly when its distance is below the midpoint of the batch's range |
| Normalizing.NormalizedExample | python_scripts/multi_hub_rep.py:183-190 | [0.1, 0.4, 0.9] normalises to [0.0, 0.375, 1.0] |
| Decisions.SameDiffVerdict | python_scripts/multi_hub_rep.py:236-239 | the verdict is 'same' exactly when the score is below 0.5, and its word is 'same' exactly when its code is 1 |
| Decisions.JudgeSameDiff | python_scripts/multi_hub_rep.py:241-248 | the entry keeps the score; a recorded answer equal to the verdict's word is correct without calling int(); the only error is int() rejecting the recorded answer |
| Decisions.JudgeSameDiffMeaning | python_scripts/multi_hub_rep.py:236-248 | a trial raises exactly when the recorded answer is neither the verdict's word nor an integer; otherwise the entry keeps the score and is correct exactly when the answer is the word or an integer equal to the code |
| Decisions.SameDiffNumericLabel | python_scripts/multi_hub_rep.py:236-243 | a recorded code 1 or 2 is correct exactly when it matches the threshold: 1 for a score below 0.5, 2 otherwise |
| Decisions.SameDiffWordLabel | python_scripts/multi_hub_rep.py:241-243 | a word answer naming the verdict is correct; a disagreeing word raises from int() |
| Decisions.ThreeAcfChoice | python_scripts/multi_hub_rep.py:154-162 | the choice is in 1..3 and names a candidate nearest the target, the lowest such position on a tie, so the ValueError branch is unreachable |
| Decisions.OddballChoice | python_scripts/multi_hub_rep.py:105-113 | the choice is in 1..3 and is the image outside a closest pair; ties go to the pair tried first, (1,2) then (1,3) then (2,3), so the ValueError branch is unreachable |
| Decisions.OddballIsFarthest | python_scripts/multi_hub_rep.py:105-113 | the chosen image is at least as far from each other image as those two are from each other |
| Decisions.ExemplarChoice | python_scripts/multi_hub_rep.py:81-90 | 'target' or 'foil1' is chosen only when strictly nearer than both others; 'foil2' only when it is nearest or the nearest distance is tied |
| Decisions.ExemplarChoiceRule | python_scripts/multi_hub_rep.py:81-90 | a candidate strictly nearer than both others is chosen; any tie for the nearest distance gives 'foil2' |
| Decisions.JudgeExemplar | python_scripts/multi_hub_rep.py:81-91 | the entry is [answer, choice] and the answer is 'correct' exactly when the choice is 'target' |
| Decisions.ExemplarCorrectIff | python_scripts/multi_hub_rep.py:77-91 | correct exactly when some reference distance of the target is strictly below every reference distance of both foils |
| Decisions.JudgeChoice | python_scripts/multi_hub_rep.py:117-121 | the entry is [answer, choice]; it raises exactly when int(CorrRes) raises, and is correct exactly when int(CorrRes) equals the choice |
| Decisions.CountCorrect | python_scripts/multi_hub_rep.py:117-125 | the correct count never exceeds the number of entries |
| Decisions.CountCorrectAll | python_scripts/multi_hub_rep.py:117-125 | the correct total equals the number of entries exactly when every entry is correct |
| Decisions.CountCorrectNone | python_scripts/multi_hub_rep.py:117-125 | the correct total is zero exactly when every entry is incorrect |
| Decisions.DecisionExamples | python_scripts/multi_hub_rep.py:77-162 | worked cases: 3ACF [0.5, 0.9, 0.3] picks 3, oddball (0.9, 0.9, 0.1) picks 1, and exemplar minima (0.2, 0.5, 0.6) pick the target as correct |
| TrialSets.Distance | python_scripts/multi_hub_rep.py:318 | the only error reading a representation is IndexError at one of the two positions |
| TrialSets.DistanceInRange | python_scripts/multi_hub_rep.py:318 | two positions inside reps give the metric of their representations |
| TrialSets.DistanceOutOfRange | python_scripts/multi_hub_rep.py:318 | a position past the end raises IndexError, the first position being read first |
| TrialSets.MeasureReferences | python_scripts/multi_hub_rep.py:359-363 | after n rounds over set6, each of the three lists holds n distances |
| TrialSets.MeasureAgainstSet6 | python_scripts/multi_hub_rep.py:359-363 | the loop over set6 returns exactly MeasureReferences over all six reference images, errors included |
| TrialSets.MeasureReferencesAt | python_scripts/multi_hub_rep.py:359-363 | round j measures set6[j], located by name, against the target, foil1 and foil2 |
| TrialSets.PairRow | python_scripts/multi_hub_rep.py:312-321 | a task-2 row yields a pair record carrying its row number |
| TrialSets.TargetRow | python_scripts/multi_hub_rep.py:322-335 | a task-3 row yields a target record carrying its row number |
| TrialSets.OddRow | python_scripts/multi_hub_rep.py:336-347 | an 'odd' row yields an oddball record carrying its row number |
| TrialSets.ExemplarRow | python_scripts/multi_hub_rep.py:348-365 | an 'le' row yields an exemplar record with six distances per candidate |
| TrialSets.MakeSet | python_scripts/multi_hub_rep.py:312-367 | a data row yields a record of its task's layout carrying its row number; an unknown tag raises |
| TrialSets.BuildSets | python_scripts/multi_hub_rep.py:302-372 | the first n rows yield one record per data row |
| TrialSets.ImageSets | python_scripts/multi_hub_rep.py:302-372 | no data rows give []; otherwise one record per data row, record k from row k + 1, each in its task's layout |
| TrialSets.ImageSetsMaker | python_scripts/multi_hub_rep.py:302-372 | the row walk with its row_idx counter returns exactly ImageSets, errors included |
| TrialSets.ImageSetsAt | python_scripts/multi_hub_rep.py:310-370 | record k of the result is what data row k + 1 yields on its own |
| TrialSets.UnknownTaskFails | python_scripts/multi_hub_rep.py:366-367 | an unknown task tag raises, but only when a data row exists |
| TrialSets.SameDiffSetsAt | python_scripts/multi_hub_rep.py:312-321 | record k has cells 5 and 6 with '.jpg' rewritten to '.tif' as names, located at their first positions; it has the distance between their representations and CorrRes from cell 2 |
| TrialSets.ThreeAcfSetsAt | python_scripts/multi_hub_rep.py:322-335 | record k names, through TrialImage (the f-string `trial{row_idx}{suffix}`), trial{k+1}-1/-2/-3/-target.jpg, located in image_names; it has each candidate's distance to the target and CorrRes from cell 1 |
| TrialSets.OddballSetsAt | python_scripts/multi_hub_rep.py:336-347 | record k names, through TrialImage (the f-string `trial{row_idx}{suffix}`), trial{k+1}-1/-2/-3.jpg, located in image_names; it has the three pairwise distances and CorrRes from cell 1 |
| TrialSets.ExemplarSetsAt | python_scripts/multi_hub_rep.py:348-365 | record k takes the target from cell 2 and the foils from the last two cells, plus '.tif'; each candidate is measured against the same six set6 images in set6 order, and CorrRes comes from cell 3 |
| TrialSets.TrialImagesPresent | python_scripts/multi_hub_rep.py:323-342 | tasks 3 and 'odd' succeed only when every trial image named after each data row is in image_names |
| TrialSets.AbsentReferenceFails | python_scripts/multi_hub_rep.py:359-360 | a set6 image missing from image_names makes task 'le' raise once there is a data row |
| TrialSets.TrialImageInjective | python_scripts/multi_hub_rep.py:323-326 | names built by TrialImage, the f-string `trial{row_idx}{suffix}`, for different rows or different suffixes never coincide |
| Scoring.Collect | python_scripts/multi_hub_rep.py:104-125 | a walk that raises nowhere yields one entry per trial |
| Scoring.CollectSuccessIff | python_scripts/multi_hub_rep.py:104-125 | the walk yields exactly the trials' entries, in order, when no trial raises |
| Scoring.CollectFails | python_scripts/multi_hub_rep.py:104-125 | the walk raises exactly when some trial raises |
| Scoring.CollectFirstFailure | python_scripts/multi_hub_rep.py:104-125 | the exception raised is that of the first trial that raises |
| Scoring.PairDistances | python_scripts/multi_hub_rep.py:227-229 | all_euc_comparisons holds one distance per trial |
| Scoring.SameDiffTally | python_scripts/multi_hub_rep.py:231-299 | a returned tally counts every trial, has one entry per trial, and its correct total counts the 'correct' entries |
| Scoring.SameDiffScore | python_scripts/multi_hub_rep.py:213-299 | an exception from image_sets_maker is same_diff's exception; a returned tally has num_total == len(answer_set) == the number of data rows and a correct total equal to the number of 'correct' entries |
| Scoring.SameDiff | python_scripts/multi_hub_rep.py:213-299 | same_diff's loops return exactly SameDiffScore, errors included |
| Scoring.JudgePairs | python_scripts/multi_hub_rep.py:234-271 | the thresholding loop returns exactly the collected judgements with their correct count |
| Scoring.ThreeAcfTally | python_scripts/multi_hub_rep.py:153-179 | a returned tally counts every trial, has one entry per trial, and its correct total counts the 'correct' entries |
| Scoring.ThreeAcfScore | python_scripts/multi_hub_rep.py:149-179 | an exception from image_sets_maker is three_ACF's exception; a returned tally has num_total == len(answer_set) == the number of data rows and a correct total equal to the number of 'correct' entries |
| Scoring.ThreeAcf | python_scripts/multi_hub_rep.py:149-179 | three_ACF's loop returns exactly ThreeAcfScore, errors included |
| Scoring.OddballTally | python_scripts/multi_hub_rep.py:104-131 | a returned tally counts every trial, has one entry per trial, and its correct total counts the 'correct' entries |
| Scoring.OddballScore | python_scripts/multi_hub_rep.py:99-131 | an exception from image_sets_maker is many_oddball's exception; a returned tally has num_total == len(answer_set) == the number of data rows and a correct total equal to the number of 'correct' entries |
| Scoring.ManyOddball | python_scripts/multi_hub_rep.py:99-131 | many_oddball's loop returns exactly OddballScore, errors included |
| Scoring.ExemplarAnswers | python_scripts/multi_hub_rep.py:76-92 | one entry per trial |
| Scoring.ExemplarTally | python_scripts/multi_hub_rep.py:72-97 | the tally counts every trial, has one entry per trial, and its correct total counts the 'correct' entries |
| Scoring.ExemplarScore | python_scripts/multi_hub_rep.py:59-97 | learning_exemplar raises exactly when image_sets_maker does, with its exception; a returned tally has num_total == len(answer_set) == the number of data rows and a correct total equal to the number of 'correct' entries |
| Scoring.LearningExemplar | python_scripts/multi_hub_rep.py:59-97 | learning_exemplar returns exactly ExemplarScore, errors from image_sets_maker included |
| Scoring.JudgeExemplars | python_scripts/multi_hub_rep.py:72-97 | the scoring loop returns exactly ExemplarTally |
| Scoring.SameDiffEmptyFails | python_scripts/multi_hub_rep.py:213-231 | with no data rows, same_diff raises from max([]) |
| Scoring.ChoiceScorersEmpty | python_scripts/multi_hub_rep.py:149-179 | with no data rows, three_ACF, many_oddball and learning_exemplar return [0, 0, []] |
| Scoring.SameDiffFlatFails | python_scripts/multi_hub_rep.py:186-188 | when every pair is at the same distance, same_diff divides by zero |
| Scoring.SameDiffEntryAt | python_scripts/multi_hub_rep.py:234-271 | entry k is the judgement of pair k against its normalised distance |
| Scoring.SameDiffAnswerAt | python_scripts/multi_hub_rep.py:235-248 | entry k's score is pair k's normalised distance and lies in [0, 1]; the verdict is 'same' exactly when the distance is below the batch's midpoint; the entry is correct exactly when CorrRes is the verdict's word or an integer equal to its code |
| Scoring.SameDiffExtremes | python_scripts/multi_hub_rep.py:231-239 | the closest pair scores 0.0 and is judged 'same'; the farthest scores 1.0 and is judged 'diff' |
| Scoring.SameDiffFailsIff | python_scripts/multi_hub_rep.py:241 | once the distances normalise, same_diff raises exactly when some CorrRes is neither the verdict's word nor an integer |
| Scoring.ThreeAcfAnswerAt | python_scripts/multi_hub_rep.py:153-172 | entry k is [answer, choice] with the choice from ThreeAcfChoice, correct exactly when int(CorrRes) equals the choice |
| Scoring.ThreeAcfFailsIff | python_scripts/multi_hub_rep.py:165 | three_ACF raises, once the records exist, exactly when some CorrRes is not an integer |
| Scoring.OddballAnswerAt | python_scripts/multi_hub_rep.py:104-124 | entry k is [answer, choice] with the choice from OddballChoice, correct exactly when int(CorrRes) equals the choice |
| Scoring.OddballFailsIff | python_scripts/multi_hub_rep.py:117 | many_oddball raises, once the records exist, exactly when some CorrRes is not an integer |
| Scoring.ExemplarAnswerAt | python_scripts/multi_hub_rep.py:76-91 | entry k picks by ExemplarChoice on the three minima and is correct exactly when some target reference distance is strictly below every foil reference distance |

## Left out

- Model loading, preprocessing and inference are not modelled. This covers
  `get_model`, `get_dataset`, `get_reps`, `rep_maker` and `find_model`, plus
  `python_scripts/hubReps.py`. They dispatch to machine-learning libraries; the
  representations enter the model as the parameter `reps`.
- `euclidean_distance` is not modelled: it is numpy floating-point arithmetic with a
  square root. The metric is the parameter `dist`, and no property here depends on it
  being Euclidean.
- `LBA` is not modelled. It draws random numbers and its result is never used in
  scoring (`image_sets_maker` stores `None` in its place). That unused last field of
  the task-2 record is dropped.
- The image cropping at the start of `three_ACF` is left out. It rewrites image files
  on disk and does not affect the scores.
- Printing and the `args` global used in the prints are left out.
- `image_list`, `load_image_set` and the `__main__` driver, with its `np.load` and
  `np.save`, are left out: they are file I/O.
- `python_scripts/modelData.py` and `python_scripts/train_10x10.py` are not part of
  this model.
- CSV parsing (quoting, newlines) is left out. The rows arrive already split into
  cells.
- Floating point is left out: distances and scores are exact reals. In particular,
  Python's float rounding in `normalize` is not modelled. With numpy float inputs, a
  batch of equal distances would give NaN rather than a `ZeroDivisionError`; the model
  follows Python floats and raises.
- Text.ParseInt: accepts what `int()` accepts among strings of ASCII digits, an
  optional leading sign and surrounding tab, line feed, vertical tab, form feed,
  carriage return or space. It does not model underscore digit separators, non-ASCII
  digits or non-ASCII whitespace, which Python also accepts; such strings read as not a
  number.
- `same_diff` also sums the scores of correct and incorrect trials
  (`euc_correct_factor_total` and `euc_incorrect_factor_total`). Those sums are never
  returned or printed, so they are left out.
- Normalizing.Normalize computes the minimum and maximum once, before the loop. The
  source calls `min(arr)` again on every round; the value is the same.
- Scoring.JudgePairs and Scoring.JudgeExemplars are the second halves of `same_diff`
  and `learning_exemplar`, split out as methods of their own. They add no behaviour.
