/** Runs of equal directories in a listing, and where a limit on runs with an artifact cuts it. */
module DirectoryRuns {

  import opened Common

  /** One listed key: its directory, and whether it marks the directory as an artifact. */
  datatype Step<+D> = Step(dir: D, artifact: bool)

  /** A run of one directory starts at k. */
  predicate Boundary<D(==)>(steps: seq<Step<D>>, k: nat)
    requires k < |steps|
  {
    k == 0 || steps[k].dir != steps[k - 1].dir
  }

  /** Where the run that holds k starts. */
  function RunStart<D(==)>(steps: seq<Step<D>>, k: nat): (b: nat)
    requires k < |steps|
    ensures b <= k && Boundary(steps, b) && steps[b].dir == steps[k].dir
  {
    if Boundary(steps, k) then k else RunStart(steps, k - 1)
  }

  /** An artifact at p, in the run that starts at b. */
  ghost predicate MarksRun<D>(steps: seq<Step<D>>, p: nat, b: int)
    requires p < |steps|
  {
    steps[p].artifact && RunStart(steps, p) == b
  }

  /** The run that starts at b has an artifact among the first k steps. */
  ghost predicate HasArtifact<D>(steps: seq<Step<D>>, k: nat, b: int)
    requires k <= |steps|
  {
    exists p :: 0 <= p < k && MarksRun(steps, p, b)
  }

  /** The starts of the runs with an artifact among the first k steps. */
  ghost function ArtifactRuns<D>(steps: seq<Step<D>>, k: nat): set<nat>
    requires k <= |steps|
  {
    set b: nat | b < k && HasArtifact(steps, k, b)
  }

  ghost predicate Full<D>(steps: seq<Step<D>>, maxSegments: Option<nat>, k: nat)
    requires k <= |steps|
  {
    maxSegments.Some? && |ArtifactRuns(steps, k)| >= maxSegments.value
  }

  /** The first place a run starts with the limit already reached, or the end. */
  ghost predicate StopsAt<D>(steps: seq<Step<D>>, maxSegments: Option<nat>, k: nat) {
    && k <= |steps|
    && (k < |steps| ==> Boundary(steps, k) && Full(steps, maxSegments, k))
    && forall b :: 0 <= b < k && Boundary(steps, b) ==> !Full(steps, maxSegments, b)
  }

  lemma ArtifactRunsStep<D>(steps: seq<Step<D>>, k: nat)
    requires k < |steps|
    ensures ArtifactRuns(steps, k + 1) ==
            ArtifactRuns(steps, k) + if steps[k].artifact then {RunStart(steps, k)} else {}
  {
    forall b: nat
      ensures HasArtifact(steps, k + 1, b) <==>
              HasArtifact(steps, k, b) || MarksRun(steps, k, b)
    {
      if HasArtifact(steps, k, b) {
        var p :| 0 <= p < k && MarksRun(steps, p, b);
        assert HasArtifact(steps, k + 1, b);
      }
    }
  }

  lemma ArtifactRunsGrow<D>(steps: seq<Step<D>>, j: nat, k: nat)
    requires j <= k <= |steps|
    ensures ArtifactRuns(steps, j) <= ArtifactRuns(steps, k)
    ensures |ArtifactRuns(steps, j)| <= |ArtifactRuns(steps, k)|
  {
    forall b | b in ArtifactRuns(steps, j) ensures b in ArtifactRuns(steps, k) {
      var p :| 0 <= p < j && MarksRun(steps, p, b);
      assert HasArtifact(steps, k, b);
    }
    SubsetCardinality(ArtifactRuns(steps, j), ArtifactRuns(steps, k));
  }

  /** The open run's mark and the runs closed before it make up the artifact runs among the first k steps. */
  ghost predicate Tally<D>(steps: seq<Step<D>>, k: nat, closed: set<nat>, open: bool) {
    && k <= |steps|
    && (k == 0 ==> closed == {} && !open)
    && (k > 0 ==> forall b :: b in closed ==> b < RunStart(steps, k - 1))
    && ArtifactRuns(steps, k) == if open then closed + {RunStart(steps, k - 1)} else closed
  }

  lemma TallyNewRun<D>(steps: seq<Step<D>>, k: nat, closed: set<nat>, open: bool)
    requires k < |steps| && Boundary(steps, k) && Tally(steps, k, closed, open)
    ensures |ArtifactRuns(steps, k)| == |closed| + if open then 1 else 0
    ensures Tally(steps, k + 1, ArtifactRuns(steps, k), steps[k].artifact)
  {
    ArtifactRunsStep(steps, k);
  }

  lemma TallySameRun<D>(steps: seq<Step<D>>, k: nat, closed: set<nat>, open: bool)
    requires k < |steps| && !Boundary(steps, k) && Tally(steps, k, closed, open)
    ensures Tally(steps, k + 1, closed, open || steps[k].artifact)
  {
    ArtifactRunsStep(steps, k);
    assert RunStart(steps, k) == RunStart(steps, k - 1);
  }

  /** What a loop over the first k steps knows when it has not stopped. */
  ghost predicate Counted<D>(steps: seq<Step<D>>, maxSegments: Option<nat>, k: nat, closed: set<nat>, open: bool) {
    && Tally(steps, k, closed, open)
    && forall b :: 0 <= b < k && Boundary(steps, b) ==> !Full(steps, maxSegments, b)
  }

  lemma CountedNewRun<D>(steps: seq<Step<D>>, maxSegments: Option<nat>, k: nat,
                         closed: set<nat>, open: bool)
    requires Counted(steps, maxSegments, k, closed, open) && k < |steps| && Boundary(steps, k)
    ensures var runs := ArtifactRuns(steps, k);
      && |runs| == |closed| + (if open then 1 else 0)
      && if maxSegments.Some? && |runs| >= maxSegments.value then StopsAt(steps, maxSegments, k)
         else Counted(steps, maxSegments, k + 1, runs, steps[k].artifact)
  {
    TallyNewRun(steps, k, closed, open);
  }

  lemma CountedSameRun<D>(steps: seq<Step<D>>, maxSegments: Option<nat>, k: nat,
                          closed: set<nat>, open: bool)
    requires Counted(steps, maxSegments, k, closed, open) && k < |steps| && !Boundary(steps, k)
    ensures Counted(steps, maxSegments, k + 1, closed, open || steps[k].artifact)
  {
    TallySameRun(steps, k, closed, open);
  }

  // ----- Where a plan stops ---------------------------------------------------------------

  lemma StopIsUnique<D>(steps: seq<Step<D>>, maxSegments: Option<nat>, j: nat, k: nat)
    requires StopsAt(steps, maxSegments, j) && StopsAt(steps, maxSegments, k)
    ensures j == k
  {
  }

  lemma {:induction false} SameRunStart<D>(steps: seq<Step<D>>, k: nat, p: nat)
    requires k < |steps| && RunStart(steps, k) <= p <= k
    ensures RunStart(steps, p) == RunStart(steps, k)
    decreases k
  {
    if p < k {
      SameRunStart(steps, k - 1, p);
    }
  }

  /** A plan holds at most the asked number of artifact runs, and a truncated one holds exactly that many. */
  lemma SegmentBound<D>(steps: seq<Step<D>>, n: nat, k: nat)
    requires StopsAt(steps, Some(n), k)
    ensures |ArtifactRuns(steps, k)| <= n
    ensures k < |steps| ==> |ArtifactRuns(steps, k)| == n
  {
    if k > 0 {
      var b := RunStart(steps, k - 1);
      assert !Full(steps, Some(n), b);
      OneRunMore(steps, k);
      SubsetCardinality(ArtifactRuns(steps, k), ArtifactRuns(steps, b) + {b});
    }
  }

  /** The run that holds the last of k steps adds at most itself. */
  lemma OneRunMore<D>(steps: seq<Step<D>>, k: nat)
    requires 0 < k <= |steps|
    ensures var b := RunStart(steps, k - 1);
      ArtifactRuns(steps, k) <= ArtifactRuns(steps, b) + {b}
  {
    var b := RunStart(steps, k - 1);
    forall s | s in ArtifactRuns(steps, k) ensures s == b || s in ArtifactRuns(steps, b) {
      var p :| 0 <= p < k && MarksRun(steps, p, s);
      if b <= p {
        SameRunStart(steps, k - 1, p);
      } else {
        assert HasArtifact(steps, b, s);
      }
    }
  }

  // ----- Whole directories ----------------------------------------------------------------

  /** No directory has keys on both sides of k. */
  ghost predicate Whole<D>(steps: seq<Step<D>>, k: nat) {
    forall i, j :: 0 <= i < k <= j < |steps| ==> steps[i].dir != steps[j].dir
  }

  /** A directory's keys are interrupted by another directory at or after an artifact. */
  ghost predicate Interrupted<D>(steps: seq<Step<D>>, i: nat, p: nat, m: nat, j: nat) {
    && i <= p <= m < j < |steps|
    && steps[i].dir == steps[j].dir != steps[m].dir
    && steps[p].artifact
  }

  lemma SplitIsInterrupted<D>(steps: seq<Step<D>>, maxSegments: Option<nat>, k: nat, i: nat, j: nat)
    requires StopsAt(steps, maxSegments, k) && i < k <= j < |steps| && steps[i].dir == steps[j].dir
    ensures exists i', p, m, j' :: Interrupted(steps, i', p, m, j')
  {
    var b := RunStart(steps, k - 1);
    assert !Full(steps, maxSegments, b);
    ArtifactRunsGrow(steps, b, k);
    assert ArtifactRuns(steps, b) != ArtifactRuns(steps, k);
    var s :| s in ArtifactRuns(steps, k) && s !in ArtifactRuns(steps, b);
    var p :| 0 <= p < k && MarksRun(steps, p, s);
    assert b <= p;
    if i < b && steps[i].dir != steps[b].dir {
      SameRunStart(steps, k - 1, p);
      assert Interrupted(steps, i, p, p, j);
    } else {
      var first := if i < b then i else b;
      if b <= i { SameRunStart(steps, k - 1, i); }
      assert steps[first].dir == steps[j].dir;
      assert steps[k].dir != steps[k - 1].dir && steps[k - 1].dir == steps[b].dir;
      assert Interrupted(steps, first, p, k, j);
    }
  }

  /** Where the run that holds p ends. */
  lemma {:induction false} RunEnd<D>(steps: seq<Step<D>>, p: nat) returns (k: nat)
    requires p < |steps|
    ensures p < k <= |steps| && RunStart(steps, k - 1) == RunStart(steps, p)
    ensures k < |steps| ==> Boundary(steps, k)
    decreases |steps| - p
  {
    if p + 1 == |steps| || Boundary(steps, p + 1) {
      k := p + 1;
    } else {
      k := RunEnd(steps, p + 1);
    }
  }

  lemma InterruptedSplits<D>(steps: seq<Step<D>>, i: nat, p: nat, m: nat, j: nat)
    returns (n: nat, k: nat)
    requires Interrupted(steps, i, p, m, j)
    ensures StopsAt(steps, Some(n), k) && i < k <= j
  {
    k := RunEnd(steps, p);
    n := |ArtifactRuns(steps, k)|;
    var s := RunStart(steps, p);
    assert MarksRun(steps, p, s) && HasArtifact(steps, k, s);
    if j < k {
      SameRunStart(steps, k - 1, m);
      SameRunStart(steps, k - 1, j);
    }
    forall b | 0 <= b < k && Boundary(steps, b) ensures !Full(steps, Some(n), b) {
      if s < b {
        SameRunStart(steps, k - 1, b);
      }
      assert b <= s && s !in ArtifactRuns(steps, b) && s in ArtifactRuns(steps, k);
      ArtifactRunsGrow(steps, b, k);
      SubsetCardinality(ArtifactRuns(steps, b), ArtifactRuns(steps, k));
    }
  }

  /** Every limit cuts between whole directories exactly when no directory is interrupted at or
      after an artifact. */
  lemma DirectoriesAreWholeIff<D>(steps: seq<Step<D>>)
    ensures (forall maxSegments, k :: StopsAt(steps, maxSegments, k) ==> Whole(steps, k))
            <==> !exists i, p, m, j :: Interrupted(steps, i, p, m, j)
  {
    if i: nat, p: nat, m: nat, j: nat :| Interrupted(steps, i, p, m, j) {
      var n, k := InterruptedSplits(steps, i, p, m, j);
      assert StopsAt(steps, Some(n), k) && !Whole(steps, k);
    } else {
      forall maxSegments: Option<nat>, k: nat | StopsAt(steps, maxSegments, k) ensures Whole(steps, k) {
        if i: nat, j: nat :| i < k <= j < |steps| && steps[i].dir == steps[j].dir {
          SplitIsInterrupted(steps, maxSegments, k, i, j);
        }
      }
    }
  }

  // ----- One limit --------------------------------------------------------------------------

  /** With p, the n-th artifact run gets its first artifact. */
  ghost predicate CompletesRun<D>(steps: seq<Step<D>>, n: nat, p: nat) {
    && p < |steps| && steps[p].artifact
    && |ArtifactRuns(steps, p + 1)| == n == |ArtifactRuns(steps, p)| + 1
  }

  /** A directory with keys both up to the end of p's run and after it. */
  ghost predicate Straddles<D>(steps: seq<Step<D>>, p: nat, i: nat, j: nat) {
    && p < |steps| && i < |steps| && j < |steps| && steps[i].dir == steps[j].dir
    && RunStart(steps, i) <= RunStart(steps, p) < RunStart(steps, j)
  }

  lemma {:induction false} RunStartPast<D>(steps: seq<Step<D>>, k: nat, j: nat)
    requires k <= j < |steps| && Boundary(steps, k)
    ensures RunStart(steps, j) >= k
    decreases j
  {
    if !Boundary(steps, j) {
      RunStartPast(steps, k, j - 1);
    }
  }

  lemma RunStartUpTo<D>(steps: seq<Step<D>>, k: nat, i: nat)
    requires i <= k < |steps|
    ensures RunStart(steps, i) <= RunStart(steps, k)
  {
    if RunStart(steps, k) <= i {
      SameRunStart(steps, k, i);
    }
  }

  lemma OneStepMore<D>(steps: seq<Step<D>>, k: nat)
    requires k < |steps|
    ensures |ArtifactRuns(steps, k)| <= |ArtifactRuns(steps, k + 1)| <= |ArtifactRuns(steps, k)| + 1
    ensures |ArtifactRuns(steps, k + 1)| > |ArtifactRuns(steps, k)| ==> steps[k].artifact
  {
    ArtifactRunsStep(steps, k);
    ArtifactRunsGrow(steps, k, k + 1);
    if !steps[k].artifact {
      assert ArtifactRuns(steps, k + 1) == ArtifactRuns(steps, k);
    }
  }

  /** Where the count of artifact runs reaches n. */
  lemma {:induction false} FindCompletion<D>(steps: seq<Step<D>>, n: nat, b: nat, k: nat) returns (p: nat)
    requires b < k <= |steps| && |ArtifactRuns(steps, b)| < n == |ArtifactRuns(steps, k)|
    ensures b <= p < k && CompletesRun(steps, n, p)
    decreases k
  {
    OneStepMore(steps, k - 1);
    if |ArtifactRuns(steps, k - 1)| == n {
      p := FindCompletion(steps, n, b, k - 1);
    } else {
      p := k - 1;
    }
  }

  /** Where a plan with limit n stops. */
  lemma StopsAfterRunOf<D>(steps: seq<Step<D>>, n: nat, p: nat) returns (k: nat)
    requires CompletesRun(steps, n, p)
    ensures StopsAt(steps, Some(n), k) && p < k && RunStart(steps, k - 1) == RunStart(steps, p)
  {
    k := RunEnd(steps, p);
    ArtifactRunsGrow(steps, p + 1, k);
    forall b | 0 <= b < k && Boundary(steps, b) ensures !Full(steps, Some(n), b) {
      if RunStart(steps, p) < b {
        SameRunStart(steps, k - 1, b);
      }
      ArtifactRunsGrow(steps, b, p);
    }
  }

  lemma StraddledIsSplit<D>(steps: seq<Step<D>>, n: nat, k: nat, p: nat, i: nat, j: nat)
    requires StopsAt(steps, Some(n), k) && CompletesRun(steps, n, p) && Straddles(steps, p, i, j)
    ensures i < k <= j
  {
    var e := StopsAfterRunOf(steps, n, p);
    StopIsUnique(steps, Some(n), e, k);
    if k <= i { RunStartPast(steps, k, i); }
    if j < k { RunStartUpTo(steps, k - 1, j); }
  }

  lemma SplitIsStraddled<D>(steps: seq<Step<D>>, n: nat, k: nat, i: nat, j: nat) returns (p: nat)
    requires StopsAt(steps, Some(n), k) && i < k <= j < |steps| && steps[i].dir == steps[j].dir
    ensures CompletesRun(steps, n, p) && Straddles(steps, p, i, j)
  {
    var b := RunStart(steps, k - 1);
    SegmentBound(steps, n, k);
    assert !Full(steps, Some(n), b);
    p := FindCompletion(steps, n, b, k);
    SameRunStart(steps, k - 1, p);
    RunStartPast(steps, k, j);
    RunStartUpTo(steps, k - 1, i);
  }

  /** Some directory straddles the end of the run that completes the n-th artifact run. */
  ghost predicate LimitStraddled<D>(steps: seq<Step<D>>, n: nat) {
    exists p: nat, i: nat, j: nat :: CompletesRun(steps, n, p) && Straddles(steps, p, i, j)
  }

  /** A limit of n splits a directory exactly then. */
  lemma LimitSplitsIff<D>(steps: seq<Step<D>>, n: nat, k: nat)
    requires StopsAt(steps, Some(n), k)
    ensures !Whole(steps, k) <==> LimitStraddled(steps, n)
  {
    if LimitStraddled(steps, n) {
      var p: nat, i: nat, j: nat :| CompletesRun(steps, n, p) && Straddles(steps, p, i, j);
      StraddledIsSplit(steps, n, k, p, i, j);
      assert steps[i].dir == steps[j].dir;
    }
    if !Whole(steps, k) {
      var i: nat, j: nat :| i < k <= j < |steps| && steps[i].dir == steps[j].dir;
      var p := SplitIsStraddled(steps, n, k, i, j);
    }
  }

  /** A directory resumed after another one's artifact is split by a limit of one. */
  lemma ResumedDirectoryIsSplit<D>(steps: seq<Step<D>>)
    requires |steps| == 3 && steps[0].dir == steps[2].dir != steps[1].dir
    requires !steps[0].artifact && steps[1].artifact
    ensures StopsAt(steps, Some(1), 2) && !Whole(steps, 2)
  {
    ArtifactRunsStep(steps, 0);
    ArtifactRunsStep(steps, 1);
    assert ArtifactRuns(steps, 0) == {} && ArtifactRuns(steps, 1) == {} && ArtifactRuns(steps, 2) == {1};
  }
}
