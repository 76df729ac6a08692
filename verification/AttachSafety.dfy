/** What every durable write of every run keeps, crashes included. */
module AttachSafety {

  import opened Common
  import opened SegmentIdentity
  import opened Attach

  // ----- Lawful writes --------------------------------------------------------------------

  /** A row may be overwritten, or its blob, only by force and only for the very same segment. */
  predicate MayWrite(force: bool, rows: map<string, Row>, ident: SegmentIdent) {
    FerroId(ident) in rows ==> force && RowMatches(rows[FerroId(ident)], ident)
  }

  ghost predicate Lawful(env: Env, force: bool, m: Moment, w: Write) {
    && MayWrite(force, m.world.rows, w.ident)
    && (w.CommitRow? ==>
          BlobKey(w.ident) in m.world.blobs && env.hash(m.world.blobs[BlobKey(w.ident)]) == w.sha256)
  }

  ghost predicate AllLawful(env: Env, force: bool, m: Moment, writes: seq<Write>)
    decreases |writes|
  {
    writes != [] ==> Lawful(env, force, m, writes[0]) && AllLawful(env, force, Apply(m, writes[0]), writes[1..])
  }

  lemma {:induction false} LawfulConcat(env: Env, force: bool, m: Moment, xs: seq<Write>, ys: seq<Write>)
    requires AllLawful(env, force, m, xs) && AllLawful(env, force, ApplyAll(m, xs), ys)
    ensures AllLawful(env, force, m, xs + ys)
    decreases |xs|
  {
    if xs == [] {
      assert xs + ys == ys;
    } else {
      assert (xs + ys)[1..] == xs[1..] + ys;
      LawfulConcat(env, force, Apply(m, xs[0]), xs[1..], ys);
    }
  }

  lemma {:induction false} LawfulPrefix(env: Env, force: bool, m: Moment, writes: seq<Write>, k: nat)
    requires AllLawful(env, force, m, writes) && k <= |writes|
    ensures AllLawful(env, force, m, writes[..k])
    decreases k
  {
    if k > 0 {
      assert writes[..k][1..] == writes[1..][..k - 1];
      LawfulPrefix(env, force, Apply(m, writes[0]), writes[1..], k - 1);
    }
  }

  // ----- The writes of one segment are lawful ---------------------------------------------------

  lemma {:induction false} UploadIsLawful(env: Env, force: bool, m: Moment, ident: SegmentIdent, contents: seq<Files>)
    requires MayWrite(force, m.world.rows, ident)
    ensures var puts := PutAll(ident, contents);
      AllLawful(env, force, m, puts) && ApplyAll(m, puts).world.rows == m.world.rows
    decreases |contents|
  {
    if contents != [] {
      var puts := PutAll(ident, contents);
      assert puts[1..] == PutAll(ident, contents[1..]);
      UploadIsLawful(env, force, Apply(m, puts[0]), ident, contents[1..]);
    }
  }

  lemma PublishIsLawful(env: Env, force: bool, m: Moment, ident: SegmentIdent, files: Files, io: Io)
    requires MayWrite(force, m.world.rows, ident)
    ensures AllLawful(env, force, m, Publish(env, ident, files, io))
  {
    var puts := PutAll(ident, io.partials);
    UploadIsLawful(env, force, m, ident, io.partials);
    var m' := ApplyAll(m, puts);
    var tail := if !io.uploadOk then []
                else [PutBlob(ident, files)] + if !io.row.Refused? then [CommitRow(ident, env.hash(files))] else [];
    if io.uploadOk {
      assert !io.row.Refused? ==> tail == [PutBlob(ident, files), CommitRow(ident, env.hash(files))];
      CompleteUploadIsLawful(env, force, m', ident, files, tail);
    }
    LawfulConcat(env, force, m, puts, tail);
  }

  lemma CompleteUploadIsLawful(env: Env, force: bool, m: Moment, ident: SegmentIdent, files: Files,
                               tail: seq<Write>)
    requires MayWrite(force, m.world.rows, ident)
    requires tail == [PutBlob(ident, files)] || tail == [PutBlob(ident, files), CommitRow(ident, env.hash(files))]
    ensures AllLawful(env, force, m, tail)
  {
    var m' := Apply(m, tail[0]);
    if |tail| == 2 {
      var commit := tail[1];
      assert Lawful(env, force, m', commit);
      assert tail[1..] == [commit];
    }
  }

  // ----- A run only writes lawfully -----------------------------------------------------------

  /** What this run has attached is in the store, under the same segment. */
  ghost predicate SeenIsStored(rows: map<string, Row>, seen: map<string, SegmentIdent>) {
    forall id :: id in seen ==> FerroId(seen[id]) == id && id in rows && RowMatches(rows[id], seen[id])
  }

  lemma GoMayWrite(env: Env, force: bool, rows: map<string, Row>, seen: map<string, SegmentIdent>,
                   job: Job)
    requires SeenIsStored(rows, seen) && Decide(env, force, rows, seen, job).Go?
    ensures var d := Decide(env, force, rows, seen, job);
      && env.identify(job.identity) == Ok(d.ident) && job.gate == Staged(d.files, d.numRows)
      && MayWrite(force, rows, d.ident)
      && (d.exists_ <==> FerroId(d.ident) in rows)
  {
  }

  /** The rows only change where the writes commit. */
  lemma PublishRows(env: Env, m: Moment, ident: SegmentIdent, files: Files, io: Io)
    ensures var m' := ApplyAll(m, Publish(env, ident, files, io));
      m'.world.rows == if io.uploadOk && !io.row.Refused?
                       then m.world.rows[FerroId(ident) := RowOf(ident, env.hash(files))] else m.world.rows
  {
    var puts := PutAll(ident, io.partials);
    UploadRows(m, ident, io.partials);
    var put, commit := PutBlob(ident, files), CommitRow(ident, env.hash(files));
    var tail := if !io.uploadOk then [] else if io.row.Refused? then [put] else [put, commit];
    assert Publish(env, ident, files, io) == puts + tail;
    ApplyConcat(m, puts, tail);
    var m' := ApplyAll(m, puts);
    if io.uploadOk {
      assert tail[1..] == if io.row.Refused? then [] else [commit];
      assert ApplyAll(m', tail) == ApplyAll(Apply(m', put), tail[1..]);
      assert !io.row.Refused? ==> ApplyAll(Apply(m', put), [commit]) == Apply(Apply(m', put), commit);
    }
  }

  lemma {:induction false} UploadRows(m: Moment, ident: SegmentIdent, contents: seq<Files>)
    ensures ApplyAll(m, PutAll(ident, contents)).world.rows == m.world.rows
    decreases |contents|
  {
    if contents != [] {
      var puts := PutAll(ident, contents);
      assert puts[1..] == PutAll(ident, contents[1..]);
      UploadRows(Apply(m, puts[0]), ident, contents[1..]);
    }
  }

  lemma NextIsLawful(env: Env, params: Params, m: Moment, seen: map<string, SegmentIdent>, job: Job)
    requires !params.dryRun && SeenIsStored(m.world.rows, seen)
    ensures var (outcome, writes, seen') := AttachNext(env, params, m.world.rows, seen, job);
      && AllLawful(env, params.force, m, writes)
      && SeenIsStored(ApplyAll(m, writes).world.rows, seen')
  {
    var d := Decide(env, params.force, m.world.rows, seen, job);
    if !Filters(params, job.identity) && d.Go? {
      GoMayWrite(env, params.force, m.world.rows, seen, job);
      PublishIsLawful(env, params.force, m, d.ident, d.files, job.io);
      PublishRows(env, m, d.ident, d.files, job.io);
      SeenStaysStored(env, params.force, m.world.rows, seen, d.ident, env.hash(d.files));
    }
  }

  lemma SeenStaysStored(env: Env, force: bool, rows: map<string, Row>,
                        seen: map<string, SegmentIdent>, ident: SegmentIdent, sha: string)
    requires SeenIsStored(rows, seen) && MayWrite(force, rows, ident)
    ensures SeenIsStored(rows[FerroId(ident) := RowOf(ident, sha)], seen[FerroId(ident) := ident])
    ensures SeenIsStored(rows[FerroId(ident) := RowOf(ident, sha)], seen)
  {
  }

  /** Every write of a real run is lawful. */
  lemma {:induction false} RunIsLawful(env: Env, params: Params, m: Moment, seen: map<string, SegmentIdent>,
                                       jobs: seq<Job>)
    requires !params.dryRun && SeenIsStored(m.world.rows, seen)
    ensures AllLawful(env, params.force, m, RunJobs(env, params, m, seen, jobs).writes)
    ensures SeenIsStored(RunJobs(env, params, m, seen, jobs).end.world.rows, RunJobs(env, params, m, seen, jobs).seen)
    decreases |jobs|
  {
    if jobs != [] {
      var (outcome, writes, seen') := AttachNext(env, params, m.world.rows, seen, jobs[0]);
      NextIsLawful(env, params, m, seen, jobs[0]);
      var m' := ApplyAll(m, writes);
      RunIsLawful(env, params, m', seen', jobs[1..]);
      LawfulConcat(env, params.force, m, writes, RunJobs(env, params, m', seen', jobs[1..]).writes);
    }
  }

  /** A dry run writes nothing. */
  lemma {:induction false} DryRunWritesNothing(env: Env, params: Params, m: Moment, seen: map<string, SegmentIdent>,
                                               jobs: seq<Job>)
    requires params.dryRun
    ensures RunJobs(env, params, m, seen, jobs).writes == [] && RunJobs(env, params, m, seen, jobs).end == m
    decreases |jobs|
  {
    if jobs != [] {
      var (outcome, writes, seen') := AttachNext(env, params, m.world.rows, seen, jobs[0]);
      DryRunWritesNothing(env, params, m, seen', jobs[1..]);
    }
  }

  /** However a run ends, what it has written is lawful. */
  lemma CrashedRunIsLawful(env: Env, m: Moment, run: Run)
    ensures AllLawful(env, run.params.force, m, RunWrites(env, m, run))
  {
    if run.params.dryRun {
      DryRunWritesNothing(env, run.params, m, map[], run.jobs);
    } else {
      RunIsLawful(env, run.params, m, map[], run.jobs);
      var writes := RunJobs(env, run.params, m, map[], run.jobs).writes;
      if run.crashAfter < |writes| {
        LawfulPrefix(env, run.params.force, m, writes, run.crashAfter);
      }
    }
  }

  // ----- Blobs match their rows -----------------------------------------------------------------

  ghost predicate BlobMatches(env: Env, w: World, id: string)
    requires id in w.rows
  {
    var key := (w.rows[id].dataSource, id);
    key in w.blobs && env.hash(w.blobs[key]) == w.rows[id].sha256
  }

  /** Every used row's blob is complete and hashes to the recorded value. */
  ghost predicate Consistent(env: Env, w: World) {
    forall id :: id in w.rows && w.rows[id].used ==> BlobMatches(env, w, id)
  }

  /** The rows whose blob does not match are among those whose replacement was begun and not finished. */
  ghost predicate OnlyBegunMismatch(env: Env, m: Moment) {
    forall id :: id in m.world.rows && m.world.rows[id].used && id !in m.begun ==> BlobMatches(env, m.world, id)
  }

  predicate SameSegment(a: Row, b: Row) {
    a.dataSource == b.dataSource && a.start == b.start && a.end == b.end && a.version == b.version
  }

  /** Rows stay, for the same segment. */
  ghost predicate RowsKept(a: World, b: World) {
    forall id :: id in a.rows ==> id in b.rows && SameSegment(a.rows[id], b.rows[id])
  }

  /** Existing rows and the blobs under their ids are exactly as they were, and new rows are in use. */
  ghost predicate Untouched(a: World, b: World) {
    && (forall id :: id in a.rows ==>
          && id in b.rows && b.rows[id] == a.rows[id]
          && forall ds :: ((ds, id) in a.blobs <==> (ds, id) in b.blobs)
                          && ((ds, id) in a.blobs ==> a.blobs[(ds, id)] == b.blobs[(ds, id)]))
    && (forall id :: id in b.rows && id !in a.rows ==> b.rows[id].used)
  }

  lemma WriteKeepsMatch(env: Env, force: bool, m: Moment, w: Write)
    requires Lawful(env, force, m, w) && OnlyBegunMismatch(env, m)
    ensures OnlyBegunMismatch(env, Apply(m, w))
  {
    var m' := Apply(m, w);
    forall id | id in m'.world.rows && m'.world.rows[id].used && id !in m'.begun
      ensures BlobMatches(env, m'.world, id)
    {
      if id != FerroId(w.ident) {
        assert BlobMatches(env, m.world, id);
      }
    }
  }

  lemma WriteKeepsRows(env: Env, force: bool, m: Moment, w: Write)
    requires Lawful(env, force, m, w)
    ensures RowsKept(m.world, Apply(m, w).world)
  {
  }

  lemma WriteTouchesNothing(env: Env, m: Moment, w: Write)
    requires Lawful(env, false, m, w) && m.begun == {}
    ensures Untouched(m.world, Apply(m, w).world) && Apply(m, w).begun == {}
  {
  }

  lemma {:induction false} WritesKeepMatch(env: Env, force: bool, m: Moment, writes: seq<Write>)
    requires AllLawful(env, force, m, writes) && OnlyBegunMismatch(env, m)
    ensures OnlyBegunMismatch(env, ApplyAll(m, writes))
    decreases |writes|
  {
    if writes != [] {
      WriteKeepsMatch(env, force, m, writes[0]);
      WritesKeepMatch(env, force, Apply(m, writes[0]), writes[1..]);
    }
  }

  lemma {:induction false} WritesKeepRows(env: Env, force: bool, m: Moment, writes: seq<Write>)
    requires AllLawful(env, force, m, writes)
    ensures RowsKept(m.world, ApplyAll(m, writes).world)
    decreases |writes|
  {
    if writes != [] {
      WriteKeepsRows(env, force, m, writes[0]);
      WritesKeepRows(env, force, Apply(m, writes[0]), writes[1..]);
    }
  }

  lemma {:induction false} WritesTouchNothing(env: Env, m: Moment, writes: seq<Write>)
    requires AllLawful(env, false, m, writes) && m.begun == {}
    ensures Untouched(m.world, ApplyAll(m, writes).world) && ApplyAll(m, writes).begun == {}
    decreases |writes|
  {
    if writes != [] {
      WriteTouchesNothing(env, m, writes[0]);
      WritesTouchNothing(env, Apply(m, writes[0]), writes[1..]);
      UntouchedTransitive(m.world, Apply(m, writes[0]).world, ApplyAll(m, writes).world);
    }
  }

  lemma UntouchedTransitive(a: World, b: World, c: World)
    requires Untouched(a, b) && Untouched(b, c)
    ensures Untouched(a, c)
  {
  }
}
