/** What a run reports of each artifact and what it leaves in the store, said of the artifact, the store
    and the failures alone. */
module AttachOutcomes {

  import opened Common
  import opened SegmentIdentity
  import opened Attach

  // ----- One artifact ---------------------------------------------------------------------

  /** A data source was asked for, and the artifact is known to be of another. */
  predicate OtherDataSource(params: Params, job: Job) {
    match (params.datasource, job.identity.dataSource)
    case (Some(asked), Some(known)) => known != asked
    case _ => false
  }

  predicate HasColumns(row: Row, a: SegmentIdent) {
    row.dataSource == a.dataSource && row.start == a.start && row.end == a.end && row.version == a.version
  }

  /** The id is held by this very segment, in this run or else in the store. */
  predicate HeldBySame(rows: map<string, Row>, seen: map<string, SegmentIdent>, a: SegmentIdent) {
    var id := FerroId(a);
    if id in seen then seen[id] == a else id in rows && HasColumns(rows[id], a)
  }

  predicate HeldByOther(rows: map<string, Row>, seen: map<string, SegmentIdent>, a: SegmentIdent) {
    (FerroId(a) in seen || FerroId(a) in rows) && !HeldBySame(rows, seen, a)
  }

  predicate Unreachable(seen: map<string, SegmentIdent>, job: Job, a: SegmentIdent) {
    FerroId(a) !in seen && !job.io.lookupOk
  }

  /** An artifact is left out exactly when it is known to be of a data source that was not asked for. */
  lemma FilteredIff(env: Env, params: Params, rows: map<string, Row>, seen: map<string, SegmentIdent>, job: Job)
    ensures AttachNext(env, params, rows, seen, job).0.FilteredOut? <==> OtherDataSource(params, job)
    ensures OtherDataSource(params, job) ==> AttachNext(env, params, rows, seen, job) == (FilteredOut, [], seen)
  {
  }

  /** What stops an artifact before anything is staged. */
  lemma StoppedEarly(env: Env, params: Params, rows: map<string, Row>, seen: map<string, SegmentIdent>, job: Job)
    requires !OtherDataSource(params, job)
    ensures env.identify(job.identity).Err? ==>
      AttachNext(env, params, rows, seen, job) ==
        (Record(Failed(BadIdentity(env.identify(job.identity).error))), [], seen)
    ensures env.identify(job.identity).Ok? ==>
      var a, next := env.identify(job.identity).value, AttachNext(env, params, rows, seen, job);
      && (Unreachable(seen, job, a) ==> next == (Record(Failed(LookupFailed)), [], seen))
      && (!Unreachable(seen, job, a) && HeldByOther(rows, seen, a) ==> next == (Record(Failed(Collision)), [], seen))
      && (!Unreachable(seen, job, a) && HeldBySame(rows, seen, a) && !params.force ==>
            next == (Record(SkippedExists), [], seen))
  {
  }

  /** Otherwise the artifact is taken up: what fails of it is reported, and a dry run stops short of writing. */
  ghost predicate TakenUp(env: Env, params: Params, rows: map<string, Row>, seen: map<string, SegmentIdent>, job: Job,
                          a: SegmentIdent)
  {
    && !OtherDataSource(params, job) && env.identify(job.identity) == Ok(a)
    && !Unreachable(seen, job, a) && !HeldByOther(rows, seen, a)
    && (HeldBySame(rows, seen, a) ==> params.force)
  }

  lemma StoppedLate(env: Env, params: Params, rows: map<string, Row>, seen: map<string, SegmentIdent>, job: Job,
                    a: SegmentIdent)
    requires TakenUp(env, params, rows, seen, job, a)
    ensures var next := AttachNext(env, params, rows, seen, job);
      match job.gate
      case StageError => next == (Record(Failed(NotStaged)), [], seen)
      case ReadError => next == (Record(Failed(NotReadable)), [], seen)
      case HashError => next == (Record(Failed(NotHashed)), [], seen)
      case Staged(_, numRows) =>
        params.dryRun ==> next == (Record(WouldAttach(numRows)), [], seen[FerroId(a) := a])
  {
  }

  /** The world in which the blob of a segment holds the files. */
  function WithBlob(w: World, a: SegmentIdent, files: Files): World {
    World(w.rows, w.blobs[(a.dataSource, FerroId(a)) := files])
  }

  /** And in which its row is there, in use, and records their hash. */
  function WithSegment(env: Env, w: World, a: SegmentIdent, files: Files): World {
    World(w.rows[FerroId(a) := Row(a.dataSource, a.start, a.end, a.version, true, env.hash(files))],
          w.blobs[(a.dataSource, FerroId(a)) := files])
  }

  lemma {:induction false} PutsLeaveLast(m: Moment, a: SegmentIdent, contents: seq<Files>)
    ensures ApplyAll(m, PutAll(a, contents)).world ==
            if contents == [] then m.world else WithBlob(m.world, a, contents[|contents| - 1])
    decreases |contents|
  {
    if contents != [] {
      var puts := PutAll(a, contents);
      assert puts[1..] == PutAll(a, contents[1..]);
      PutsLeaveLast(Apply(m, puts[0]), a, contents[1..]);
    }
  }

  lemma {:induction false} PublishLeaves(env: Env, m: Moment, a: SegmentIdent, files: Files, io: Io)
    requires io.uploadOk
    ensures ApplyAll(m, Publish(env, a, files, io)).world ==
            if io.row.Refused? then WithBlob(m.world, a, files) else WithSegment(env, m.world, a, files)
  {
    var puts, put, commit := PutAll(a, io.partials), PutBlob(a, files), CommitRow(a, env.hash(files));
    var tail := if io.row.Refused? then [put] else [put, commit];
    assert Publish(env, a, files, io) == puts + tail;
    ApplyConcat(m, puts, tail);
    PutsLeaveLast(m, a, io.partials);
    var m' := ApplyAll(m, puts);
    assert tail[1..] == if io.row.Refused? then [] else [commit];
    assert ApplyAll(m', tail) == ApplyAll(Apply(m', put), tail[1..]);
    assert ApplyAll(Apply(m', put), [commit]) == Apply(Apply(m', put), commit);
    if io.partials != [] {
      var torn := io.partials[|io.partials| - 1];
      assert m.world.blobs[BlobKey(a) := torn][BlobKey(a) := files] == m.world.blobs[BlobKey(a) := files];
    }
  }

  /** A staged artifact that is taken up for real: reported as what the storage and the store did, and
      exactly that is in the store afterwards. */
  lemma {:induction false} StagedIsWritten(env: Env, params: Params, m: Moment, seen: map<string, SegmentIdent>,
                                           job: Job, a: SegmentIdent)
    requires TakenUp(env, params, m.world.rows, seen, job, a) && job.gate.Staged? && !params.dryRun
    ensures var (outcome, writes, seen') := AttachNext(env, params, m.world.rows, seen, job);
      var held, w := HeldBySame(m.world.rows, seen, a), ApplyAll(m, writes).world;
      && (!job.io.uploadOk ==>
            && outcome == Record(Failed(UploadFailed(held))) && seen' == seen
            && w == if job.io.partials == [] then m.world
                    else WithBlob(m.world, a, job.io.partials[|job.io.partials| - 1]))
      && (job.io.uploadOk && !job.io.row.Confirmed? ==>
            && outcome == Record(Failed(InsertFailed(held))) && seen' == seen
            && w == if job.io.row.Refused? then WithBlob(m.world, a, job.gate.files)
                    else WithSegment(env, m.world, a, job.gate.files))
      && (job.io.uploadOk && job.io.row.Confirmed? ==>
            && outcome == Record(Attached(job.gate.numRows, held)) && seen' == seen[FerroId(a) := a]
            && w == WithSegment(env, m.world, a, job.gate.files))
  {
    var files := job.gate.files;
    assert AttachNext(env, params, m.world.rows, seen, job).1 == Publish(env, a, files, job.io);
    if job.io.uploadOk {
      PublishLeaves(env, m, a, files, job.io);
    } else {
      assert Publish(env, a, files, job.io) == PutAll(a, job.io.partials);
      PutsLeaveLast(m, a, job.io.partials);
    }
  }

  // ----- New segments are attached --------------------------------------------------------------

  /** A good artifact of a segment whose id nobody holds, and no failure. */
  ghost predicate IsNew(env: Env, params: Params, rows: map<string, Row>, seen: map<string, SegmentIdent>, job: Job) {
    && job.io.lookupOk && job.io.uploadOk && job.io.row.Confirmed? && job.gate.Staged?
    && env.identify(job.identity).Ok? && !OtherDataSource(params, job)
    && FerroId(env.identify(job.identity).value) !in rows && FerroId(env.identify(job.identity).value) !in seen
  }

  /** It is attached: its files are in deep storage and its row is in the store, in use and with their hash. */
  lemma {:induction false} NewSegmentIsAttached(env: Env, params: Params, m: Moment, seen: map<string, SegmentIdent>,
                                                job: Job)
    requires !params.dryRun && IsNew(env, params, m.world.rows, seen, job)
    ensures var a, files := env.identify(job.identity).value, job.gate.files;
      var (outcome, writes, seen') := AttachNext(env, params, m.world.rows, seen, job);
      var w := ApplyAll(m, writes).world;
      && outcome == Record(Attached(job.gate.numRows, false)) && seen' == seen[FerroId(a) := a]
      && w.rows == m.world.rows[FerroId(a) := Row(a.dataSource, a.start, a.end, a.version, true, env.hash(files))]
      && w.blobs == m.world.blobs[(a.dataSource, FerroId(a)) := files]
  {
    StagedIsWritten(env, params, m, seen, job, env.identify(job.identity).value);
  }

  /** With force a segment that is there is attached again, and reported as replaced. */
  lemma {:induction false} HeldSegmentIsReplaced(env: Env, params: Params, m: Moment, seen: map<string, SegmentIdent>,
                                                 job: Job, a: SegmentIdent)
    requires !params.dryRun && params.force && env.identify(job.identity) == Ok(a) && job.gate.Staged?
    requires !OtherDataSource(params, job) && HeldBySame(m.world.rows, seen, a)
    requires job.io.lookupOk && job.io.uploadOk && job.io.row.Confirmed?
    ensures var files := job.gate.files;
      var (outcome, writes, seen') := AttachNext(env, params, m.world.rows, seen, job);
      var w := ApplyAll(m, writes).world;
      && outcome == Record(Attached(job.gate.numRows, true)) && seen' == seen[FerroId(a) := a]
      && w.rows == m.world.rows[FerroId(a) := Row(a.dataSource, a.start, a.end, a.version, true, env.hash(files))]
      && w.blobs == m.world.blobs[(a.dataSource, FerroId(a)) := files]
  {
    StagedIsWritten(env, params, m, seen, job, a);
  }

  ghost function IdOf(env: Env, job: Job): string
    requires env.identify(job.identity).Ok?
  {
    FerroId(env.identify(job.identity).value)
  }

  ghost predicate AllNew(env: Env, params: Params, rows: map<string, Row>, seen: map<string, SegmentIdent>,
                         jobs: seq<Job>)
  {
    && (forall i :: 0 <= i < |jobs| ==> IsNew(env, params, rows, seen, jobs[i]))
    && (forall i, j :: 0 <= i < j < |jobs| ==> IdOf(env, jobs[i]) != IdOf(env, jobs[j]))
  }

  ghost predicate IsStored(env: Env, w: World, job: Job)
    requires env.identify(job.identity).Ok? && job.gate.Staged?
  {
    var a, files := env.identify(job.identity).value, job.gate.files;
    && FerroId(a) in w.rows
    && w.rows[FerroId(a)] == Row(a.dataSource, a.start, a.end, a.version, true, env.hash(files))
    && (a.dataSource, FerroId(a)) in w.blobs && w.blobs[(a.dataSource, FerroId(a))] == files
  }

  /** What is held under other ids stays as it is. */
  ghost predicate OthersStay(w: World, w': World, ids: set<string>) {
    && (forall id :: id !in ids ==> (id in w.rows <==> id in w'.rows) && (id in w.rows ==> w'.rows[id] == w.rows[id]))
    && (forall key: (string, string) :: key.1 !in ids ==>
          (key in w.blobs <==> key in w'.blobs) && (key in w.blobs ==> w'.blobs[key] == w.blobs[key]))
  }

  ghost function IdsOf(env: Env, jobs: seq<Job>): set<string>
    requires forall i :: 0 <= i < |jobs| ==> env.identify(jobs[i].identity).Ok?
  {
    set i | 0 <= i < |jobs| :: IdOf(env, jobs[i])
  }

  lemma IdsOfCons(env: Env, jobs: seq<Job>)
    requires jobs != [] && forall i :: 0 <= i < |jobs| ==> env.identify(jobs[i].identity).Ok?
    ensures IdsOf(env, jobs) == {IdOf(env, jobs[0])} + IdsOf(env, jobs[1..])
  {
    forall i | 0 < i < |jobs| ensures IdOf(env, jobs[i]) in IdsOf(env, jobs[1..]) {
      assert jobs[1..][i - 1] == jobs[i];
    }
  }

  lemma AllNewRest(env: Env, params: Params, m: Moment, seen: map<string, SegmentIdent>, jobs: seq<Job>)
    requires !params.dryRun && jobs != [] && AllNew(env, params, m.world.rows, seen, jobs)
    ensures var (outcome, writes, seen') := AttachNext(env, params, m.world.rows, seen, jobs[0]);
      var w := ApplyAll(m, writes).world;
      && outcome == Record(Attached(jobs[0].gate.numRows, false))
      && AllNew(env, params, w.rows, seen', jobs[1..])
      && IsStored(env, w, jobs[0]) && OthersStay(m.world, w, {IdOf(env, jobs[0])})
      && IdOf(env, jobs[0]) !in IdsOf(env, jobs[1..])
  {
    NewSegmentIsAttached(env, params, m, seen, jobs[0]);
  }

  /** A run without failures over good artifacts of segments that are all new attaches every one of
      them, and touches nothing else. */
  lemma {:induction false} NewSegmentsAreAllAttached(env: Env, params: Params, m: Moment,
                                                     seen: map<string, SegmentIdent>, jobs: seq<Job>)
    requires !params.dryRun && AllNew(env, params, m.world.rows, seen, jobs)
    ensures var r := RunJobs(env, params, m, seen, jobs);
      && |r.outcomes| == |jobs|
      && (forall i :: 0 <= i < |jobs| ==> r.outcomes[i] == Record(Attached(jobs[i].gate.numRows, false)))
      && (forall i :: 0 <= i < |jobs| ==> IsStored(env, r.end.world, jobs[i]))
      && OthersStay(m.world, r.end.world, IdsOf(env, jobs))
    decreases |jobs|
  {
    if jobs != [] {
      var (outcome, writes, seen') := AttachNext(env, params, m.world.rows, seen, jobs[0]);
      var m', rest := ApplyAll(m, writes), jobs[1..];
      AllNewRest(env, params, m, seen, jobs);
      NewSegmentsAreAllAttached(env, params, m', seen', rest);
      var r, r' := RunJobs(env, params, m, seen, jobs), RunJobs(env, params, m', seen', rest);
      RunCons(env, params, m, seen, jobs);
      IdsOfCons(env, jobs);
      OthersStayTwice(m.world, m'.world, r.end.world, {IdOf(env, jobs[0])}, IdsOf(env, rest));
      StaysStored(env, m'.world, r.end.world, jobs[0], IdsOf(env, rest));
      AllFromRest(env, jobs, r.outcomes, r.end.world);
    }
  }

  lemma {:induction false} RunCons(env: Env, params: Params, m: Moment, seen: map<string, SegmentIdent>, jobs: seq<Job>)
    requires jobs != []
    ensures var (outcome, writes, seen') := AttachNext(env, params, m.world.rows, seen, jobs[0]);
      var r, r' := RunJobs(env, params, m, seen, jobs), RunJobs(env, params, ApplyAll(m, writes), seen', jobs[1..]);
      r.outcomes == [outcome] + r'.outcomes && r.outcomes[0] == outcome && r.outcomes[1..] == r'.outcomes
      && r.end == r'.end
  {
  }

  lemma OthersStayTwice(w: World, w': World, w'': World, ids: set<string>, ids': set<string>)
    requires OthersStay(w, w', ids) && OthersStay(w', w'', ids')
    ensures OthersStay(w, w'', ids + ids')
  {
  }

  lemma StaysStored(env: Env, w: World, w': World, job: Job, ids: set<string>)
    requires env.identify(job.identity).Ok? && job.gate.Staged? && IsStored(env, w, job)
    requires OthersStay(w, w', ids) && IdOf(env, job) !in ids
    ensures IsStored(env, w', job)
  {
  }

  lemma AllFromRest(env: Env, jobs: seq<Job>, outcomes: seq<Outcome>, w: World)
    requires jobs != [] && |outcomes| == |jobs|
    requires forall i :: 0 <= i < |jobs| ==> env.identify(jobs[i].identity).Ok? && jobs[i].gate.Staged?
    requires IsStored(env, w, jobs[0]) && outcomes[0] == Record(Attached(jobs[0].gate.numRows, false))
    requires forall i :: 0 <= i < |jobs[1..]| ==>
      IsStored(env, w, jobs[1..][i]) && outcomes[1..][i] == Record(Attached(jobs[1..][i].gate.numRows, false))
    ensures forall i :: 0 <= i < |jobs| ==>
      IsStored(env, w, jobs[i]) && outcomes[i] == Record(Attached(jobs[i].gate.numRows, false))
  {
    forall i | 0 < i < |jobs|
      ensures IsStored(env, w, jobs[i]) && outcomes[i] == Record(Attached(jobs[i].gate.numRows, false))
    {
      assert jobs[i] == jobs[1..][i - 1] && outcomes[i] == outcomes[1..][i - 1];
    }
  }
}
