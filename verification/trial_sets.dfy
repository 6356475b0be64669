/**
 * image_sets_maker of multi_hub_rep.py: turns the rows of a trial CSV into one
 * record per trial, naming its images, locating them in image_names and attaching
 * the distances between their representations.
 *
 * The CSV arrives already split into rows of cells. The representations are
 * `reps: seq<R>`, aligned with image_names by position, and the metric that
 * euclidean_distance computes is the parameter `dist`.
 */
module TrialSets {
  import opened Outcomes
  import opened Text

  /** The num_sets argument, which the source passes as an int or a string. */
  datatype Tag = Count(n: int) | Named(name: string)

  const SameDiffTask := Count(2)
  const ThreeAcfTask := Count(3)
  const OddballTask := Named("odd")
  const ExemplarTask := Named("le")

  predicate KnownTask(tag: Tag) {
    tag == SameDiffTask || tag == ThreeAcfTask || tag == OddballTask || tag == ExemplarTask
  }

  /** set6: the reference images every learning-exemplar candidate is measured against. */
  const Set6: seq<string> :=
    ["nz1_4_a.tif", "nz1_12_b.tif", "nz1_30_a.tif", "nz1_75_a.tif", "nz1_70_b.tif", "nz1_77_b.tif"]

  /** One trial record, with the fields the source's list holds for each task. */
  datatype ImageSet =
    | PairSet(row: nat, idx1: nat, idx2: nat, name1: string, name2: string,
              corrRes: string, dist: real)
    | TargetSet(row: nat, idx1: nat, idx2: nat, idx3: nat, targetIdx: nat,
                name1: string, name2: string, name3: string, targetName: string,
                dist1: real, dist2: real, dist3: real, corrRes: string)
    | OddSet(row: nat, idx1: nat, idx2: nat, idx3: nat,
             name1: string, name2: string, name3: string,
             dist12: real, dist13: real, dist23: real, corrRes: string)
    | ExemplarSet(row: nat, targetIdx: nat, foil1Idx: nat, foil2Idx: nat,
                  targetName: string, foil1Name: string, foil2Name: string,
                  targetDists: seq<real>, foil1Dists: seq<real>, foil2Dists: seq<real>,
                  corrRes: string)

  /** The record layout a task tag produces. */
  predicate Shaped(tag: Tag, s: ImageSet) {
    && (tag == SameDiffTask ==> s.PairSet?)
    && (tag == ThreeAcfTask ==> s.TargetSet?)
    && (tag == OddballTask ==> s.OddSet?)
    && (tag == ExemplarTask ==> s.ExemplarSet? && |s.targetDists| == |s.foil1Dists| == |s.foil2Dists| == |Set6|)
  }

  /** The number of rows after the header. */
  function DataRows(n: nat): nat {
    if n == 0 then 0 else n - 1
  }

  /** f'trial{row_idx}{suffix}'. */
  function TrialImage(rowIdx: nat, suffix: string): string {
    "trial" + NatToString(rowIdx) + suffix
  }

  /** euclidean_distance(reps[i], reps[j]), with IndexError for a position past the end of reps. */
  function Distance<R>(reps: seq<R>, dist: (R, R) -> real, i: nat, j: nat): (r: Result<real>)
    ensures r.Failure? ==> r.error == RepMissing(i) || r.error == RepMissing(j)
  {
    if i >= |reps| then Failure(RepMissing(i))
    else if j >= |reps| then Failure(RepMissing(j))
    else Success(dist(reps[i], reps[j]))
  }

  /** Two positions inside reps are always measured. */
  lemma DistanceInRange<R>(reps: seq<R>, dist: (R, R) -> real, i: nat, j: nat)
    requires i < |reps| && j < |reps|
    ensures Distance(reps, dist, i, j) == Success(dist(reps[i], reps[j]))
  {
  }

  /** reps[i] is read before reps[j], so a missing first position is the one reported. */
  lemma DistanceOutOfRange<R>(reps: seq<R>, dist: (R, R) -> real, i: nat, j: nat)
    requires i >= |reps| || j >= |reps|
    ensures Distance(reps, dist, i, j) == Failure(if i >= |reps| then RepMissing(i) else RepMissing(j))
  {
  }

  /** The three lists the loop over set6 fills. */
  datatype ReferenceDistances = ReferenceDistances(toTarget: seq<real>, toFoil1: seq<real>, toFoil2: seq<real>)

  /** The first n rounds of the loop over set6 in the 'le' branch. */
  function MeasureReferences<R>(names: seq<string>, reps: seq<R>, dist: (R, R) -> real,
                                target: nat, foil1: nat, foil2: nat, n: nat): (r: Result<ReferenceDistances>)
    requires n <= |Set6|
    ensures r.Success? ==> |r.value.toTarget| == |r.value.toFoil1| == |r.value.toFoil2| == n
    decreases n
  {
    if n == 0 then Success(ReferenceDistances([], [], []))
    else
      var done :- MeasureReferences(names, reps, dist, target, foil1, foil2, n - 1);
      var refIdx :- Lookup(names, Set6[n - 1]);
      var toTarget :- Distance(reps, dist, refIdx, target);
      var toFoil1 :- Distance(reps, dist, refIdx, foil1);
      var toFoil2 :- Distance(reps, dist, refIdx, foil2);
      Success(ReferenceDistances(done.toTarget + [toTarget], done.toFoil1 + [toFoil1], done.toFoil2 + [toFoil2]))
  }

  /** Task 2: the images named in cells 5 and 6 with '.jpg' rewritten to '.tif', the answer in cell 2. */
  function PairRow<R>(row: seq<string>, rowIdx: nat, names: seq<string>, reps: seq<R>,
                      dist: (R, R) -> real): (r: Result<ImageSet>)
    ensures r.Success? ==> r.value.PairSet? && r.value.row == rowIdx
  {
    var cell5 :- Cell(row, 5);
    var name1 := ReplaceJpg(cell5);
    var cell6 :- Cell(row, 6);
    var name2 := ReplaceJpg(cell6);
    var corrRes :- Cell(row, 2);
    var idx1 :- Lookup(names, name1);
    var idx2 :- Lookup(names, name2);
    var d :- Distance(reps, dist, idx1, idx2);
    Success(PairSet(rowIdx, idx1, idx2, name1, name2, corrRes, d))
  }

  /** Task 3: three candidates and a target named after the row number, the answer in cell 1. */
  function TargetRow<R>(row: seq<string>, rowIdx: nat, names: seq<string>, reps: seq<R>,
                        dist: (R, R) -> real): (r: Result<ImageSet>)
    ensures r.Success? ==> r.value.TargetSet? && r.value.row == rowIdx
  {
    var name1 := TrialImage(rowIdx, "-1.jpg");
    var name2 := TrialImage(rowIdx, "-2.jpg");
    var name3 := TrialImage(rowIdx, "-3.jpg");
    var targetName := TrialImage(rowIdx, "-target.jpg");
    var idx1 :- Lookup(names, name1);
    var idx2 :- Lookup(names, name2);
    var idx3 :- Lookup(names, name3);
    var targetIdx :- Lookup(names, targetName);
    var d1 :- Distance(reps, dist, targetIdx, idx1);
    var d2 :- Distance(reps, dist, targetIdx, idx2);
    var d3 :- Distance(reps, dist, targetIdx, idx3);
    var corrRes :- Cell(row, 1);
    Success(TargetSet(rowIdx, idx1, idx2, idx3, targetIdx, name1, name2, name3, targetName, d1, d2, d3, corrRes))
  }

  /** Task 'odd': three images named after the row number, their three pairwise distances, the answer in cell 1. */
  function OddRow<R>(row: seq<string>, rowIdx: nat, names: seq<string>, reps: seq<R>,
                     dist: (R, R) -> real): (r: Result<ImageSet>)
    ensures r.Success? ==> r.value.OddSet? && r.value.row == rowIdx
  {
    var name1 := TrialImage(rowIdx, "-1.jpg");
    var name2 := TrialImage(rowIdx, "-2.jpg");
    var name3 := TrialImage(rowIdx, "-3.jpg");
    var idx1 :- Lookup(names, name1);
    var idx2 :- Lookup(names, name2);
    var idx3 :- Lookup(names, name3);
    var d12 :- Distance(reps, dist, idx1, idx2);
    var d13 :- Distance(reps, dist, idx1, idx3);
    var d23 :- Distance(reps, dist, idx2, idx3);
    var corrRes :- Cell(row, 1);
    Success(OddSet(rowIdx, idx1, idx2, idx3, name1, name2, name3, d12, d13, d23, corrRes))
  }

  /** Task 'le': foils in the last two cells, target in cell 2 (each plus '.tif'), the answer in cell 3. */
  function ExemplarRow<R>(row: seq<string>, rowIdx: nat, names: seq<string>, reps: seq<R>,
                          dist: (R, R) -> real): (r: Result<ImageSet>)
    ensures r.Success? ==> r.value.ExemplarSet? && r.value.row == rowIdx
    ensures r.Success? ==> |r.value.targetDists| == |r.value.foil1Dists| == |r.value.foil2Dists| == |Set6|
  {
    var foil1Cell :- Cell(row, -2);
    var foil2Cell :- Cell(row, -1);
    var targetCell :- Cell(row, 2);
    var foil1Name, foil2Name, targetName := foil1Cell + ".tif", foil2Cell + ".tif", targetCell + ".tif";
    var foil1Idx :- Lookup(names, foil1Name);
    var foil2Idx :- Lookup(names, foil2Name);
    var targetIdx :- Lookup(names, targetName);
    var refs :- MeasureReferences(names, reps, dist, targetIdx, foil1Idx, foil2Idx, |Set6|);
    var corrRes :- Cell(row, 3);
    Success(ExemplarSet(rowIdx, targetIdx, foil1Idx, foil2Idx, targetName, foil1Name, foil2Name,
                        refs.toTarget, refs.toFoil1, refs.toFoil2, corrRes))
  }

  /** The record one data row yields under a task tag, or the exception it raises. */
  function MakeSet<R>(tag: Tag, row: seq<string>, rowIdx: nat, names: seq<string>, reps: seq<R>,
                      dist: (R, R) -> real): (r: Result<ImageSet>)
    ensures r.Success? ==> r.value.row == rowIdx && Shaped(tag, r.value)
    ensures !KnownTask(tag) ==> r == Failure(UnknownTask)
  {
    if tag == SameDiffTask then PairRow(row, rowIdx, names, reps, dist)
    else if tag == ThreeAcfTask then TargetRow(row, rowIdx, names, reps, dist)
    else if tag == OddballTask then OddRow(row, rowIdx, names, reps, dist)
    else if tag == ExemplarTask then ExemplarRow(row, rowIdx, names, reps, dist)
    else Failure(UnknownTask)
  }

  /** The record-making step of image_sets_maker under one task tag, as a function of a row and its number. */
  function RowReader<R>(tag: Tag, names: seq<string>, reps: seq<R>, dist: (R, R) -> real): (seq<string>, nat) -> Result<ImageSet> {
    (row: seq<string>, rowIdx: nat) => MakeSet(tag, row, rowIdx, names, reps, dist)
  }

  /**
   * The records of the first n rows: the header row is skipped, every data row
   * yields one record in row order, and the first exception ends the walk.
   */
  function BuildSets(rows: seq<seq<string>>, n: nat, read: (seq<string>, nat) -> Result<ImageSet>): (r: Result<seq<ImageSet>>)
    requires n <= |rows|
    ensures r.Success? ==> |r.value| == DataRows(n)
    decreases n
  {
    if n == 0 then Success([])
    else
      var sets :- BuildSets(rows, n - 1, read);
      if n - 1 == 0 then Success(sets)
      else
        var s :- read(rows[n - 1], n - 1);
        Success(sets + [s])
  }

  /** What image_sets_maker returns for a whole CSV, or the exception it raises. */
  function ImageSets<R>(rows: seq<seq<string>>, names: seq<string>, reps: seq<R>,
                        dist: (R, R) -> real, tag: Tag): (r: Result<seq<ImageSet>>)
    ensures |rows| <= 1 ==> r == Success([])
    ensures r.Success? ==> |r.value| == DataRows(|rows|)
    ensures r.Success? ==> forall k :: 0 <= k < |r.value| ==> r.value[k].row == k + 1 && Shaped(tag, r.value[k])
  {
    BuildSetsShaped(rows, names, reps, dist, tag);
    BuildSets(rows, |rows|, RowReader(tag, names, reps, dist))
  }

  /** Once a round of the loop over set6 raises, the later rounds never run. */
  lemma {:induction false} MeasureReferencesStops<R>(names: seq<string>, reps: seq<R>, dist: (R, R) -> real,
                                                     target: nat, foil1: nat, foil2: nat, i: nat, n: nat)
    requires i <= n <= |Set6|
    ensures MeasureReferences(names, reps, dist, target, foil1, foil2, i).Failure? ==>
              MeasureReferences(names, reps, dist, target, foil1, foil2, n)
              == MeasureReferences(names, reps, dist, target, foil1, foil2, i)
    decreases n
  {
    if i < n {
      MeasureReferencesStops(names, reps, dist, target, foil1, foil2, i, n - 1);
    }
  }

  /** Once a row raises, the later rows are never read. */
  lemma {:induction false} BuildSetsStops(rows: seq<seq<string>>, read: (seq<string>, nat) -> Result<ImageSet>, i: nat, n: nat)
    requires i <= n <= |rows|
    ensures BuildSets(rows, i, read).Failure? ==> BuildSets(rows, n, read) == BuildSets(rows, i, read)
    decreases n
  {
    if i < n {
      BuildSetsStops(rows, read, i, n - 1);
    }
  }

  /** One more data row of the walk: its record is appended, unless an earlier row or this one raises. */
  lemma BuildSetsStep(rows: seq<seq<string>>, read: (seq<string>, nat) -> Result<ImageSet>, n: nat)
    requires 0 < n < |rows|
    ensures BuildSets(rows, n + 1, read) ==
              if BuildSets(rows, n, read).Failure? then BuildSets(rows, n, read)
              else if read(rows[n], n).Failure? then read(rows[n], n).PropagateFailure()
              else Success(BuildSets(rows, n, read).value + [read(rows[n], n).value])
  {
  }

  /** A walk that gets past data row n got through the rows before it, and appended row n's record. */
  lemma BuildSetsGrew(rows: seq<seq<string>>, read: (seq<string>, nat) -> Result<ImageSet>, n: nat)
    requires 0 < n < |rows| && BuildSets(rows, n + 1, read).Success?
    ensures BuildSets(rows, n, read).Success? && read(rows[n], n).Success?
    ensures BuildSets(rows, n + 1, read).value == BuildSets(rows, n, read).value + [read(rows[n], n).value]
  {
  }

  /** The loop over set6 in the 'le' branch. */
  method MeasureAgainstSet6<R>(names: seq<string>, reps: seq<R>, dist: (R, R) -> real,
                               target: nat, foil1: nat, foil2: nat) returns (r: Result<ReferenceDistances>)
    ensures r == MeasureReferences(names, reps, dist, target, foil1, foil2, |Set6|)
  {
    var eucDistTarget, eucDist1, eucDist2 := [], [], [];
    for i := 0 to |Set6|
      invariant MeasureReferences(names, reps, dist, target, foil1, foil2, i)
                == Success(ReferenceDistances(eucDistTarget, eucDist1, eucDist2))
    {
      MeasureReferencesStops(names, reps, dist, target, foil1, foil2, i + 1, |Set6|);
      var img6Idx :- Lookup(names, Set6[i]);
      var toTarget :- Distance(reps, dist, img6Idx, target);
      var toFoil1 :- Distance(reps, dist, img6Idx, foil1);
      var toFoil2 :- Distance(reps, dist, img6Idx, foil2);
      eucDistTarget := eucDistTarget + [toTarget];
      eucDist1 := eucDist1 + [toFoil1];
      eucDist2 := eucDist2 + [toFoil2];
    }
    return Success(ReferenceDistances(eucDistTarget, eucDist1, eucDist2));
  }

  /** image_sets_maker: walks the rows with a row counter, appending one record per data row. */
  method ImageSetsMaker<R>(rows: seq<seq<string>>, names: seq<string>, reps: seq<R>,
                           dist: (R, R) -> real, tag: Tag) returns (r: Result<seq<ImageSet>>)
    ensures r == ImageSets(rows, names, reps, dist, tag)
  {
    ghost var read := RowReader(tag, names, reps, dist);
    var imageSets: seq<ImageSet> := [];
    var rowIdx := 0;
    while rowIdx < |rows|
      invariant rowIdx <= |rows|
      invariant BuildSets(rows, rowIdx, read) == Success(imageSets)
    {
      BuildSetsStops(rows, read, rowIdx + 1, |rows|);
      if rowIdx > 0 {
        BuildSetsStep(rows, read, rowIdx);
        var row := rows[rowIdx];
        assert read(row, rowIdx) == MakeSet(tag, row, rowIdx, names, reps, dist);
        var s: ImageSet;
        if tag == SameDiffTask {
          s :- PairRow(row, rowIdx, names, reps, dist);
        } else if tag == ThreeAcfTask {
          s :- TargetRow(row, rowIdx, names, reps, dist);
        } else if tag == OddballTask {
          s :- OddRow(row, rowIdx, names, reps, dist);
        } else if tag == ExemplarTask {
          var foil1Cell :- Cell(row, -2);
          var foil2Cell :- Cell(row, -1);
          var targetCell :- Cell(row, 2);
          var foil1Name, foil2Name, targetName := foil1Cell + ".tif", foil2Cell + ".tif", targetCell + ".tif";
          var foil1Idx :- Lookup(names, foil1Name);
          var foil2Idx :- Lookup(names, foil2Name);
          var targetIdx :- Lookup(names, targetName);
          var refs :- MeasureAgainstSet6(names, reps, dist, targetIdx, foil1Idx, foil2Idx);
          var corrRes :- Cell(row, 3);
          s := ExemplarSet(rowIdx, targetIdx, foil1Idx, foil2Idx, targetName, foil1Name, foil2Name,
                           refs.toTarget, refs.toFoil1, refs.toFoil2, corrRes);
        } else {
          return Failure(UnknownTask);
        }
        imageSets := imageSets + [s];
      }
      rowIdx := rowIdx + 1;
    }
    return Success(imageSets);
  }

  /** Whether d is the distance from reference image ref, located by name, to the image at position other. */
  predicate Measured<R>(names: seq<string>, reps: seq<R>, dist: (R, R) -> real, ref: string, other: nat, d: real) {
    && IndexOf(names, ref).Some?
    && IndexOf(names, ref).value < |reps|
    && other < |reps|
    && d == dist(reps[IndexOf(names, ref).value], reps[other])
  }

  /** Round j of the loop over set6 measures set6[j] against the target and both foils. */
  lemma {:induction false} MeasureReferencesAt<R>(names: seq<string>, reps: seq<R>, dist: (R, R) -> real,
                                                  target: nat, foil1: nat, foil2: nat, n: nat, j: nat)
    requires n <= |Set6| && j < n
    requires MeasureReferences(names, reps, dist, target, foil1, foil2, n).Success?
    ensures var refs := MeasureReferences(names, reps, dist, target, foil1, foil2, n).value;
            && Measured(names, reps, dist, Set6[j], target, refs.toTarget[j])
            && Measured(names, reps, dist, Set6[j], foil1, refs.toFoil1[j])
            && Measured(names, reps, dist, Set6[j], foil2, refs.toFoil2[j])
    decreases n
  {
    if j < n - 1 {
      MeasureReferencesAt(names, reps, dist, target, foil1, foil2, n - 1, j);
    }
  }

  /** Record k of a successful walk is what data row k + 1 yields on its own. */
  lemma {:induction false} BuildSetsAt(rows: seq<seq<string>>, read: (seq<string>, nat) -> Result<ImageSet>, n: nat, k: nat)
    requires n <= |rows|
    requires BuildSets(rows, n, read).Success? && k < |BuildSets(rows, n, read).value|
    ensures k + 1 < n
    ensures read(rows[k + 1], k + 1) == Success(BuildSets(rows, n, read).value[k])
    decreases n
  {
    if n - 1 > 0 {
      BuildSetsGrew(rows, read, n - 1);
      if k < DataRows(n - 1) {
        BuildSetsAt(rows, read, n - 1, k);
      }
    }
  }

  /** Every record of a successful walk comes from the data row after it and has its task's layout. */
  lemma BuildSetsShaped<R>(rows: seq<seq<string>>, names: seq<string>, reps: seq<R>,
                           dist: (R, R) -> real, tag: Tag)
    ensures var r := BuildSets(rows, |rows|, RowReader(tag, names, reps, dist));
            r.Success? ==> forall k :: 0 <= k < |r.value| ==> r.value[k].row == k + 1 && Shaped(tag, r.value[k])
  {
    var read := RowReader(tag, names, reps, dist);
    var r := BuildSets(rows, |rows|, read);
    if r.Success? {
      forall k | 0 <= k < |r.value|
        ensures r.value[k].row == k + 1 && Shaped(tag, r.value[k])
      {
        BuildSetsAt(rows, read, |rows|, k);
        assert read(rows[k + 1], k + 1) == MakeSet(tag, rows[k + 1], k + 1, names, reps, dist);
      }
    }
  }

  /** Record k of image_sets_maker's result is what data row k + 1 yields under the task tag. */
  lemma ImageSetsAt<R>(rows: seq<seq<string>>, names: seq<string>, reps: seq<R>, dist: (R, R) -> real, tag: Tag, k: nat)
    requires ImageSets(rows, names, reps, dist, tag).Success?
    requires k < |ImageSets(rows, names, reps, dist, tag).value|
    ensures k + 1 < |rows|
    ensures MakeSet(tag, rows[k + 1], k + 1, names, reps, dist) == Success(ImageSets(rows, names, reps, dist, tag).value[k])
  {
    var read := RowReader(tag, names, reps, dist);
    BuildSetsAt(rows, read, |rows|, k);
    assert read(rows[k + 1], k + 1) == MakeSet(tag, rows[k + 1], k + 1, names, reps, dist);
  }

  /** Under a tag image_sets_maker does not know, the first data row raises. */
  lemma {:induction false} BuildSetsUnknown<R>(rows: seq<seq<string>>, names: seq<string>, reps: seq<R>,
                                               dist: (R, R) -> real, tag: Tag, n: nat)
    requires 2 <= n <= |rows| && !KnownTask(tag)
    ensures BuildSets(rows, n, RowReader(tag, names, reps, dist)) == Failure(UnknownTask)
    decreases n
  {
    var read := RowReader(tag, names, reps, dist);
    assert read(rows[n - 1], n - 1) == MakeSet(tag, rows[n - 1], n - 1, names, reps, dist);
    if n > 2 {
      BuildSetsUnknown(rows, names, reps, dist, tag, n - 1);
    } else {
      assert BuildSets(rows, 1, read) == Success([]);
    }
  }

  /** An unknown task tag raises ValueError, but only when there is a row after the header. */
  lemma UnknownTaskFails<R>(rows: seq<seq<string>>, names: seq<string>, reps: seq<R>,
                            dist: (R, R) -> real, tag: Tag)
    requires !KnownTask(tag)
    ensures ImageSets(rows, names, reps, dist, tag) == if |rows| > 1 then Failure(UnknownTask) else Success([])
  {
    if |rows| > 1 {
      BuildSetsUnknown(rows, names, reps, dist, tag, |rows|);
    }
  }

  /** The record a task-2 row yields. */
  lemma PairRowFacts<R>(row: seq<string>, rowIdx: nat, names: seq<string>, reps: seq<R>, dist: (R, R) -> real)
    requires PairRow(row, rowIdx, names, reps, dist).Success?
    ensures var s := PairRow(row, rowIdx, names, reps, dist).value;
            && |row| > 6
            && s.name1 == ReplaceJpg(row[5]) && s.name2 == ReplaceJpg(row[6])
            && IndexOf(names, s.name1) == Some(s.idx1) && IndexOf(names, s.name2) == Some(s.idx2)
            && s.idx1 < |reps| && s.idx2 < |reps|
            && s.dist == dist(reps[s.idx1], reps[s.idx2])
            && s.corrRes == row[2]
  {
  }

  /** The record a task-3 row yields. */
  lemma TargetRowFacts<R>(row: seq<string>, rowIdx: nat, names: seq<string>, reps: seq<R>, dist: (R, R) -> real)
    requires TargetRow(row, rowIdx, names, reps, dist).Success?
    ensures var s := TargetRow(row, rowIdx, names, reps, dist).value;
            && |row| > 1
            && s.name1 == TrialImage(rowIdx, "-1.jpg") && s.name2 == TrialImage(rowIdx, "-2.jpg")
            && s.name3 == TrialImage(rowIdx, "-3.jpg") && s.targetName == TrialImage(rowIdx, "-target.jpg")
            && IndexOf(names, s.name1) == Some(s.idx1) && IndexOf(names, s.name2) == Some(s.idx2)
            && IndexOf(names, s.name3) == Some(s.idx3) && IndexOf(names, s.targetName) == Some(s.targetIdx)
            && s.idx1 < |reps| && s.idx2 < |reps| && s.idx3 < |reps| && s.targetIdx < |reps|
            && s.dist1 == dist(reps[s.targetIdx], reps[s.idx1])
            && s.dist2 == dist(reps[s.targetIdx], reps[s.idx2])
            && s.dist3 == dist(reps[s.targetIdx], reps[s.idx3])
            && s.corrRes == row[1]
  {
  }

  /** The record an 'odd' row yields. */
  lemma OddRowFacts<R>(row: seq<string>, rowIdx: nat, names: seq<string>, reps: seq<R>, dist: (R, R) -> real)
    requires OddRow(row, rowIdx, names, reps, dist).Success?
    ensures var s := OddRow(row, rowIdx, names, reps, dist).value;
            && |row| > 1
            && s.name1 == TrialImage(rowIdx, "-1.jpg") && s.name2 == TrialImage(rowIdx, "-2.jpg")
            && s.name3 == TrialImage(rowIdx, "-3.jpg")
            && IndexOf(names, s.name1) == Some(s.idx1) && IndexOf(names, s.name2) == Some(s.idx2)
            && IndexOf(names, s.name3) == Some(s.idx3)
            && s.idx1 < |reps| && s.idx2 < |reps| && s.idx3 < |reps|
            && s.dist12 == dist(reps[s.idx1], reps[s.idx2])
            && s.dist13 == dist(reps[s.idx1], reps[s.idx3])
            && s.dist23 == dist(reps[s.idx2], reps[s.idx3])
            && s.corrRes == row[1]
  {
  }

  /** The record an 'le' row yields, up to its reference distances. */
  lemma ExemplarRowFacts<R>(row: seq<string>, rowIdx: nat, names: seq<string>, reps: seq<R>, dist: (R, R) -> real)
    requires ExemplarRow(row, rowIdx, names, reps, dist).Success?
    ensures var s := ExemplarRow(row, rowIdx, names, reps, dist).value;
            && |row| > 3
            && s.targetName == row[2] + ".tif"
            && s.foil1Name == row[|row| - 2] + ".tif"
            && s.foil2Name == row[|row| - 1] + ".tif"
            && IndexOf(names, s.targetName) == Some(s.targetIdx)
            && IndexOf(names, s.foil1Name) == Some(s.foil1Idx)
            && IndexOf(names, s.foil2Name) == Some(s.foil2Idx)
            && MeasureReferences(names, reps, dist, s.targetIdx, s.foil1Idx, s.foil2Idx, |Set6|)
               == Success(ReferenceDistances(s.targetDists, s.foil1Dists, s.foil2Dists))
            && s.corrRes == row[3]
  {
  }

  /**
   * Task 2, data row k + 1: the names are cells 5 and 6 with '.jpg' rewritten to
   * '.tif', each located at its first position in image_names, the answer is cell
   * 2 and the distance is between the two images' representations.
   */
  lemma SameDiffSetsAt<R>(rows: seq<seq<string>>, names: seq<string>, reps: seq<R>, dist: (R, R) -> real, k: nat)
    requires ImageSets(rows, names, reps, dist, SameDiffTask).Success?
    requires k < |ImageSets(rows, names, reps, dist, SameDiffTask).value|
    ensures var s := ImageSets(rows, names, reps, dist, SameDiffTask).value[k];
            && s.PairSet? && k + 1 < |rows| && |rows[k + 1]| > 6
            && s.name1 == ReplaceJpg(rows[k + 1][5]) && s.name2 == ReplaceJpg(rows[k + 1][6])
            && IndexOf(names, s.name1) == Some(s.idx1) && IndexOf(names, s.name2) == Some(s.idx2)
            && s.idx1 < |reps| && s.idx2 < |reps|
            && s.dist == dist(reps[s.idx1], reps[s.idx2])
            && s.corrRes == rows[k + 1][2]
  {
    ImageSetsAt(rows, names, reps, dist, SameDiffTask, k);
    PairRowFacts(rows[k + 1], k + 1, names, reps, dist);
  }

  /**
   * Task 3, data row k + 1: the images trial{k+1}-1.jpg, -2.jpg, -3.jpg and
   * -target.jpg, each located at its first position in image_names, the distance of
   * each candidate to the target, and the answer in cell 1.
   */
  lemma ThreeAcfSetsAt<R>(rows: seq<seq<string>>, names: seq<string>, reps: seq<R>, dist: (R, R) -> real, k: nat)
    requires ImageSets(rows, names, reps, dist, ThreeAcfTask).Success?
    requires k < |ImageSets(rows, names, reps, dist, ThreeAcfTask).value|
    ensures var s := ImageSets(rows, names, reps, dist, ThreeAcfTask).value[k];
            && s.TargetSet? && k + 1 < |rows| && |rows[k + 1]| > 1
            && s.name1 == TrialImage(k + 1, "-1.jpg") && s.name2 == TrialImage(k + 1, "-2.jpg")
            && s.name3 == TrialImage(k + 1, "-3.jpg") && s.targetName == TrialImage(k + 1, "-target.jpg")
            && IndexOf(names, s.name1) == Some(s.idx1) && IndexOf(names, s.name2) == Some(s.idx2)
            && IndexOf(names, s.name3) == Some(s.idx3) && IndexOf(names, s.targetName) == Some(s.targetIdx)
            && s.idx1 < |reps| && s.idx2 < |reps| && s.idx3 < |reps| && s.targetIdx < |reps|
            && s.dist1 == dist(reps[s.targetIdx], reps[s.idx1])
            && s.dist2 == dist(reps[s.targetIdx], reps[s.idx2])
            && s.dist3 == dist(reps[s.targetIdx], reps[s.idx3])
            && s.corrRes == rows[k + 1][1]
  {
    ImageSetsAt(rows, names, reps, dist, ThreeAcfTask, k);
    TargetRowFacts(rows[k + 1], k + 1, names, reps, dist);
  }

  /**
   * Task 'odd', data row k + 1: the images trial{k+1}-1.jpg, -2.jpg and -3.jpg,
   * each located at its first position in image_names, their three pairwise
   * distances, and the answer in cell 1.
   */
  lemma OddballSetsAt<R>(rows: seq<seq<string>>, names: seq<string>, reps: seq<R>, dist: (R, R) -> real, k: nat)
    requires ImageSets(rows, names, reps, dist, OddballTask).Success?
    requires k < |ImageSets(rows, names, reps, dist, OddballTask).value|
    ensures var s := ImageSets(rows, names, reps, dist, OddballTask).value[k];
            && s.OddSet? && k + 1 < |rows| && |rows[k + 1]| > 1
            && s.name1 == TrialImage(k + 1, "-1.jpg") && s.name2 == TrialImage(k + 1, "-2.jpg")
            && s.name3 == TrialImage(k + 1, "-3.jpg")
            && IndexOf(names, s.name1) == Some(s.idx1) && IndexOf(names, s.name2) == Some(s.idx2)
            && IndexOf(names, s.name3) == Some(s.idx3)
            && s.idx1 < |reps| && s.idx2 < |reps| && s.idx3 < |reps|
            && s.dist12 == dist(reps[s.idx1], reps[s.idx2])
            && s.dist13 == dist(reps[s.idx1], reps[s.idx3])
            && s.dist23 == dist(reps[s.idx2], reps[s.idx3])
            && s.corrRes == rows[k + 1][1]
  {
    ImageSetsAt(rows, names, reps, dist, OddballTask, k);
    OddRowFacts(rows[k + 1], k + 1, names, reps, dist);
  }

  /**
   * Task 'le', data row k + 1: target from cell 2 and foils from the last two cells,
   * each with '.tif' appended and located in image_names; every candidate measured
   * against the same six set6 images, in set6 order; the answer in cell 3.
   */
  lemma ExemplarSetsAt<R>(rows: seq<seq<string>>, names: seq<string>, reps: seq<R>, dist: (R, R) -> real, k: nat)
    requires ImageSets(rows, names, reps, dist, ExemplarTask).Success?
    requires k < |ImageSets(rows, names, reps, dist, ExemplarTask).value|
    ensures var s := ImageSets(rows, names, reps, dist, ExemplarTask).value[k];
            && s.ExemplarSet? && k + 1 < |rows| && |rows[k + 1]| > 3
            && s.targetName == rows[k + 1][2] + ".tif"
            && s.foil1Name == rows[k + 1][|rows[k + 1]| - 2] + ".tif"
            && s.foil2Name == rows[k + 1][|rows[k + 1]| - 1] + ".tif"
            && IndexOf(names, s.targetName) == Some(s.targetIdx)
            && IndexOf(names, s.foil1Name) == Some(s.foil1Idx)
            && IndexOf(names, s.foil2Name) == Some(s.foil2Idx)
            && |s.targetDists| == |s.foil1Dists| == |s.foil2Dists| == |Set6|
            && (forall j :: 0 <= j < |Set6| ==>
                  && Measured(names, reps, dist, Set6[j], s.targetIdx, s.targetDists[j])
                  && Measured(names, reps, dist, Set6[j], s.foil1Idx, s.foil1Dists[j])
                  && Measured(names, reps, dist, Set6[j], s.foil2Idx, s.foil2Dists[j]))
            && s.corrRes == rows[k + 1][3]
  {
    ImageSetsAt(rows, names, reps, dist, ExemplarTask, k);
    ExemplarRowFacts(rows[k + 1], k + 1, names, reps, dist);
    var s := ImageSets(rows, names, reps, dist, ExemplarTask).value[k];
    forall j | 0 <= j < |Set6|
      ensures && Measured(names, reps, dist, Set6[j], s.targetIdx, s.targetDists[j])
              && Measured(names, reps, dist, Set6[j], s.foil1Idx, s.foil1Dists[j])
              && Measured(names, reps, dist, Set6[j], s.foil2Idx, s.foil2Dists[j])
    {
      MeasureReferencesAt(names, reps, dist, s.targetIdx, s.foil1Idx, s.foil2Idx, |Set6|, j);
    }
  }

  /**
   * Tasks 3 and 'odd' get past every row only when image_names holds all the trial
   * images named after each data row; a missing one makes them raise.
   */
  lemma TrialImagesPresent<R>(rows: seq<seq<string>>, names: seq<string>, reps: seq<R>,
                              dist: (R, R) -> real, rowIdx: nat)
    requires 1 <= rowIdx < |rows|
    ensures ImageSets(rows, names, reps, dist, ThreeAcfTask).Success? ==>
              && TrialImage(rowIdx, "-1.jpg") in names && TrialImage(rowIdx, "-2.jpg") in names
              && TrialImage(rowIdx, "-3.jpg") in names && TrialImage(rowIdx, "-target.jpg") in names
    ensures ImageSets(rows, names, reps, dist, OddballTask).Success? ==>
              && TrialImage(rowIdx, "-1.jpg") in names && TrialImage(rowIdx, "-2.jpg") in names
              && TrialImage(rowIdx, "-3.jpg") in names
  {
    if ImageSets(rows, names, reps, dist, ThreeAcfTask).Success? {
      ThreeAcfSetsAt(rows, names, reps, dist, rowIdx - 1);
    }
    if ImageSets(rows, names, reps, dist, OddballTask).Success? {
      OddballSetsAt(rows, names, reps, dist, rowIdx - 1);
    }
  }

  /** A set6 reference image that image_names lacks makes task 'le' raise once there is a data row. */
  lemma AbsentReferenceFails<R>(rows: seq<seq<string>>, names: seq<string>, reps: seq<R>,
                                dist: (R, R) -> real, j: nat)
    requires |rows| > 1 && j < |Set6|
    ensures Set6[j] !in names ==> ImageSets(rows, names, reps, dist, ExemplarTask).Failure?
  {
    if ImageSets(rows, names, reps, dist, ExemplarTask).Success? {
      ExemplarSetsAt(rows, names, reps, dist, 0);
    }
  }

  /** Image names of different rows, or with different suffixes, never coincide. */
  lemma TrialImageInjective(m: nat, n: nat, suffix1: string, suffix2: string)
    requires suffix1 != [] && suffix2 != [] && !IsDigit(suffix1[0]) && !IsDigit(suffix2[0])
    requires TrialImage(m, suffix1) == TrialImage(n, suffix2)
    ensures m == n && suffix1 == suffix2
  {
    var a, b := NatToString(m), NatToString(n);
    var x, y := TrialImage(m, suffix1), TrialImage(n, suffix2);
    assert x == "trial" + a + suffix1 && y == "trial" + b + suffix2;
    assert a == x[5..5 + |a|];
    assert b == y[5..5 + |b|];
    NatToStringInjective(m, n);
    assert suffix1 == x[5 + |a|..];
    assert suffix2 == y[5 + |b|..];
  }
}
