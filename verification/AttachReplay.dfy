/** A dry run against the real run it foretells, and a real run against its repetition. */
module AttachReplay {

  import opened Common
  import opened SegmentIdentity
  import opened Attach
  import opened AttachSafety
  import opened AttachHistory

  // ----- A dry run foretells the real run -----------------------------------------------------

  /** The same report, with WouldAttach in place of Attached. */
  predicate Foretells(dry: Outcome, actual: Outcome) {
    if actual.Record? && actual.status.Attached? then dry == Record(WouldAttach(actual.status.numRows))
    else dry == actual
  }

  ghost predicate AgreeOutside(seen: map<string, SegmentIdent>, a: map<string, Row>, b: map<string, Row>) {
    forall id :: id !in seen ==> (id in a <==> id in b) && (id in a ==> a[id] == b[id])
  }

  lemma SameDecision(env: Env, force: bool, seen: map<string, SegmentIdent>, a: map<string, Row>,
                     b: map<string, Row>, job: Job)
    requires AgreeOutside(seen, a, b)
    ensures Decide(env, force, a, seen, job) == Decide(env, force, b, seen, job)
  {
    var ident := env.identify(job.identity);
    if ident.Ok? {
      assert Lookup(a, seen, ident.value, job.io.lookupOk) == Lookup(b, seen, ident.value, job.io.lookupOk);
    }
  }

  lemma StepIsForetold(env: Env, params: Params, rows: map<string, Row>, m: Moment,
                       seen: map<string, SegmentIdent>, job: Job)
    requires !params.dryRun && FailureFree(job.io) && AgreeOutside(seen, rows, m.world.rows)
    ensures var (dry, dryWrites, drySeen) := AttachNext(env, params.(dryRun := true), rows, seen, job);
      var (actual, writes, seen') := AttachNext(env, params, m.world.rows, seen, job);
      && Foretells(dry, actual) && dryWrites == [] && drySeen == seen'
      && AgreeOutside(seen', rows, ApplyAll(m, writes).world.rows)
  {
    SameDecision(env, params.force, seen, rows, m.world.rows, job);
    var d := Decide(env, params.force, m.world.rows, seen, job);
    if !Filters(params, job.identity) && d.Go? {
      PublishRows(env, m, d.ident, d.files, job.io);
    }
  }

  lemma {:induction false} RunIsForetold(env: Env, params: Params, dryM: Moment, m: Moment,
                                         seen: map<string, SegmentIdent>, jobs: seq<Job>)
    requires !params.dryRun && AgreeOutside(seen, dryM.world.rows, m.world.rows)
    requires forall job :: job in jobs ==> FailureFree(job.io)
    ensures var dry := RunJobs(env, params.(dryRun := true), dryM, seen, jobs);
      var actual := RunJobs(env, params, m, seen, jobs);
      |dry.outcomes| == |actual.outcomes| == |jobs|
      && forall i :: 0 <= i < |jobs| ==> Foretells(dry.outcomes[i], actual.outcomes[i])
    decreases |jobs|
  {
    if jobs != [] {
      var (dry, dryWrites, drySeen) := AttachNext(env, params.(dryRun := true), dryM.world.rows, seen, jobs[0]);
      var (actual, writes, seen') := AttachNext(env, params, m.world.rows, seen, jobs[0]);
      assert jobs[0] in jobs;
      StepIsForetold(env, params, dryM.world.rows, m, seen, jobs[0]);
      RunIsForetold(env, params, dryM, ApplyAll(m, writes), seen', jobs[1..]);
    }
  }

  /** On the same artifacts and the same store, with no failure, the dry run reports artifact by artifact
      what the real run does, and changes nothing. */
  lemma DryRunForetellsRealRun(env: Env, params: Params, m: Moment, jobs: seq<Job>)
    requires !params.dryRun && forall job :: job in jobs ==> FailureFree(job.io)
    ensures var dry := RunJobs(env, params.(dryRun := true), m, map[], jobs);
      var actual := RunJobs(env, params, m, map[], jobs);
      && dry.writes == [] && dry.end == m
      && |dry.outcomes| == |actual.outcomes| == |jobs|
      && forall i :: 0 <= i < |jobs| ==> Foretells(dry.outcomes[i], actual.outcomes[i])
  {
    DryRunWritesNothing(env, params.(dryRun := true), m, map[], jobs);
    RunIsForetold(env, params, m, m, map[], jobs);
  }

  // ----- A second run attaches nothing ---------------------------------------------------------

  /** What a second run without force may report where the first reported `first`. */
  predicate Settled(first: Outcome, second: Outcome) {
    match first
    case FilteredOut => second == FilteredOut
    case Record(status) =>
      if status.Attached? || status.SkippedExists? then second == Record(SkippedExists)
      else if status == Failed(Collision) || (status.Failed? && status.reason.BadIdentity?) then second == first
      else second in [first, Record(SkippedExists), Record(Failed(Collision))]
  }

  lemma StaysMatched(a: World, b: World, id: string, ident: SegmentIdent)
    requires RowsKept(a, b) && id in a.rows
    ensures id in b.rows && (RowMatches(a.rows[id], ident) <==> RowMatches(b.rows[id], ident))
  {
  }

  /** What the lookup said of a segment it says again later, and a segment attached since is found. */
  lemma LookupRepeats(rows: World, seen: map<string, SegmentIdent>, ident: SegmentIdent,
                      later: World)
    requires SeenIsStored(rows.rows, seen) && RowsKept(rows, later)
    ensures var before := Lookup(rows.rows, seen, ident, true);
      before == Ok(true) || before == Err(Collision) ==> Lookup(later.rows, map[], ident, true) == before
  {
    var id := FerroId(ident);
    if id in rows.rows {
      StaysMatched(rows, later, id, ident);
      if id in seen && RowMatches(rows.rows[id], ident) {
        SameIdAndColumns(seen[id], ident);
      }
    }
  }

  lemma AttachedIsFound(env: Env, m: Moment, ident: SegmentIdent, files: Files, io: Io, later: World)
    requires io.uploadOk && !io.row.Refused? && RowsKept(ApplyAll(m, Publish(env, ident, files, io)).world, later)
    ensures Lookup(later.rows, map[], ident, true) == Ok(true)
  {
    PublishRows(env, m, ident, files, io);
    StaysMatched(ApplyAll(m, Publish(env, ident, files, io)).world, later, FerroId(ident), ident);
  }

  /** A row whose confirmation was lost is reported as failed although it is there: without force the
      artifact is skipped from then on. */
  lemma {:induction false} UnconfirmedRowIsFound(env: Env, params: Params, again: Params, m: Moment,
                                                 seen: map<string, SegmentIdent>, job: Job, retry: Job, later: World)
    requires !params.dryRun && !again.force && again.datasource == params.datasource
    requires retry.identity == job.identity && retry.io.lookupOk && job.io.uploadOk && job.io.row.Unconfirmed?
    requires !Filters(params, job.identity) && Decide(env, params.force, m.world.rows, seen, job).Go?
    requires RowsKept(ApplyAll(m, AttachNext(env, params, m.world.rows, seen, job).1).world, later)
    ensures var d := Decide(env, params.force, m.world.rows, seen, job);
      AttachNext(env, params, m.world.rows, seen, job).0 == Record(Failed(InsertFailed(d.exists_)))
    ensures AttachNext(env, again, later.rows, map[], retry).0 == Record(SkippedExists)
  {
    var d := Decide(env, params.force, m.world.rows, seen, job);
    assert AttachNext(env, params, m.world.rows, seen, job).1 == Publish(env, d.ident, d.files, job.io);
    AttachedIsFound(env, m, d.ident, d.files, job.io, later);
    FoundIsSkipped(env, again, later, retry, d.ident);
  }

  lemma {:induction false} FoundIsSkipped(env: Env, params: Params, w: World, job: Job, ident: SegmentIdent)
    requires !params.force && !Filters(params, job.identity) && job.io.lookupOk
    requires env.identify(job.identity) == Ok(ident) && Lookup(w.rows, map[], ident, true) == Ok(true)
    ensures AttachNext(env, params, w.rows, map[], job).0 == Record(SkippedExists)
  {
  }

  /** Once an artifact has been handled, handling it again without force in any later world of the run stops. */
  lemma {:induction false} HandledIsSettled(env: Env, params: Params, again: Params, m: Moment,
                                            seen: map<string, SegmentIdent>, job: Job, later: World)
    requires !params.dryRun && !again.force && again.datasource == params.datasource
    requires FailureFree(job.io) && SeenIsStored(m.world.rows, seen)
    requires RowsKept(ApplyAll(m, AttachNext(env, params, m.world.rows, seen, job).1).world, later)
    requires RowsKept(m.world, later)
    ensures var (outcome, writes, seen') := AttachNext(env, again, later.rows, map[], job);
      Settled(AttachNext(env, params, m.world.rows, seen, job).0, outcome) && writes == [] && seen' == map[]
  {
    var ident := env.identify(job.identity);
    if !Filters(params, job.identity) && ident.Ok? {
      LookupRepeats(m.world, seen, ident.value, later);
      var d := Decide(env, params.force, m.world.rows, seen, job);
      if d.Go? {
        AttachedIsFound(env, m, d.ident, d.files, job.io, later);
      }
    }
  }

  ghost predicate AllSettled(first: seq<Outcome>, second: seq<Outcome>) {
    |first| == |second| && forall i :: 0 <= i < |first| ==> Settled(first[i], second[i])
  }

  lemma SettledCons(x: Outcome, y: Outcome, xs: seq<Outcome>, ys: seq<Outcome>)
    requires Settled(x, y) && AllSettled(xs, ys)
    ensures AllSettled([x] + xs, [y] + ys)
  {
    forall i | 0 <= i < |[x] + xs| ensures Settled(([x] + xs)[i], ([y] + ys)[i]) {
      if i > 0 { assert ([x] + xs)[i] == xs[i - 1] && ([y] + ys)[i] == ys[i - 1]; }
    }
  }

  lemma RowsKeptTransitive(a: World, b: World, c: World)
    requires RowsKept(a, b) && RowsKept(b, c)
    ensures RowsKept(a, c)
  {
  }

  lemma {:induction false} RepeatSettles(env: Env, params: Params, again: Params, m: Moment,
                                         seen: map<string, SegmentIdent>, jobs: seq<Job>, later: Moment)
    requires !params.dryRun && !again.force && again.datasource == params.datasource
    requires SeenIsStored(m.world.rows, seen) && forall job :: job in jobs ==> FailureFree(job.io)
    requires RowsKept(RunJobs(env, params, m, seen, jobs).end.world, later.world)
    ensures var first := RunJobs(env, params, m, seen, jobs);
      var second := RunJobs(env, again, later, map[], jobs);
      && second.writes == [] && second.end == later
      && |first.outcomes| == |jobs| && AllSettled(first.outcomes, second.outcomes)
    decreases |jobs|
  {
    if jobs != [] {
      var (outcome, writes, seen') := AttachNext(env, params, m.world.rows, seen, jobs[0]);
      var m', rest := ApplyAll(m, writes), jobs[1..];
      assert jobs[0] in jobs;
      NextIsLawful(env, params, m, seen, jobs[0]);
      WritesKeepRows(env, params.force, m, writes);
      RunKeepsRows(env, params, m', seen', rest);
      RowsKeptTransitive(m'.world, RunJobs(env, params, m', seen', rest).end.world, later.world);
      RowsKeptTransitive(m.world, m'.world, later.world);
      HandledIsSettled(env, params, again, m, seen, jobs[0], later.world);
      RepeatSettles(env, params, again, m', seen', rest, later);
      var (repeated, none, nobody) := AttachNext(env, again, later.world.rows, map[], jobs[0]);
      assert ApplyAll(later, none) == later;
      SettledCons(outcome, repeated, RunJobs(env, params, m', seen', rest).outcomes,
                  RunJobs(env, again, later, map[], rest).outcomes);
    }
  }

  lemma RunKeepsRows(env: Env, params: Params, m: Moment, seen: map<string, SegmentIdent>,
                     jobs: seq<Job>)
    requires !params.dryRun && SeenIsStored(m.world.rows, seen)
    ensures RowsKept(m.world, RunJobs(env, params, m, seen, jobs).end.world)
  {
    RunIsLawful(env, params, m, seen, jobs);
    RunEndsWhereItsWritesLead(env, params, m, seen, jobs);
    WritesKeepRows(env, params.force, m, RunJobs(env, params, m, seen, jobs).writes);
  }

  /** After a real run without failures, a second one without force over the same artifacts writes
      nothing, skips what is attached, and repeats every refusal of a colliding identity. */
  lemma SecondRunAttachesNothing(env: Env, params: Params, again: Params, m: Moment, jobs: seq<Job>)
    requires !params.dryRun && !again.force && again.datasource == params.datasource
    requires forall job :: job in jobs ==> FailureFree(job.io)
    ensures var first := RunJobs(env, params, m, map[], jobs);
      var second := RunJobs(env, again, first.end, map[], jobs);
      && second.writes == [] && second.end == first.end
      && |first.outcomes| == |jobs| && AllSettled(first.outcomes, second.outcomes)
  {
    RepeatSettles(env, params, again, m, map[], jobs, RunJobs(env, params, m, map[], jobs).end);
  }
}
