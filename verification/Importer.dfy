/** The importer as it runs: one artifact after another, one durable write after another. */
module Importer {

  import opened Common
  import opened SegmentIdentity
  import Attach

  class Importer {
    var rows: map<string, Attach.Row>
    var blobs: map<(string, string), Attach.Files>
    var seen: map<string, SegmentIdent>
    /** Every durable write made, in order, and the replacements begun and not finished. */
    ghost var log: seq<Attach.Write>
    ghost var begun: set<string>

    constructor (rows: map<string, Attach.Row>, blobs: map<(string, string), Attach.Files>)
      ensures Now() == Attach.Moment(Attach.World(rows, blobs), {}) && log == [] && seen == map[]
    {
      this.rows, this.blobs, seen, log, begun := rows, blobs, map[], [], {};
    }

    ghost function Now(): Attach.Moment
      reads this
    {
      Attach.Moment(Attach.World(rows, blobs), begun)
    }

    method PutBlob(ident: SegmentIdent, files: Attach.Files)
      modifies this`blobs, this`log, this`begun
      ensures Now() == Attach.Apply(old(Now()), Attach.PutBlob(ident, files))
      ensures log == old(log) + [Attach.PutBlob(ident, files)]
    {
      blobs := blobs[Attach.BlobKey(ident) := files];
      begun := if FerroId(ident) in rows then begun + {FerroId(ident)} else begun;
      log := log + [Attach.PutBlob(ident, files)];
    }

    method CommitRow(ident: SegmentIdent, sha256: string)
      modifies this`rows, this`log, this`begun
      ensures Now() == Attach.Apply(old(Now()), Attach.CommitRow(ident, sha256))
      ensures log == old(log) + [Attach.CommitRow(ident, sha256)]
    {
      rows := rows[FerroId(ident) := Attach.RowOf(ident, sha256)];
      begun := begun - {FerroId(ident)};
      log := log + [Attach.CommitRow(ident, sha256)];
    }

    /** The upload goes through any contents the storage shows before it completes or fails. */
    method Upload(ident: SegmentIdent, files: Attach.Files, io: Attach.Io) returns (ok: bool)
      modifies this`blobs, this`log, this`begun
      ensures ok == io.uploadOk
      ensures var writes := Attach.PutAll(ident, io.partials) + if ok then [Attach.PutBlob(ident, files)] else [];
        log == old(log) + writes && Now() == Attach.ApplyAll(old(Now()), writes)
    {
      var rest := io.partials;
      ghost var done: seq<Attach.Write> := [];
      while rest != []
        invariant rows == old(rows)
        invariant done + Attach.PutAll(ident, rest) == Attach.PutAll(ident, io.partials)
        invariant log == old(log) + done && Now() == Attach.ApplyAll(old(Now()), done)
        decreases |rest|
      {
        PutBlob(ident, rest[0]);
        ApplySnoc(old(Now()), done, Attach.PutBlob(ident, rest[0]));
        done := done + [Attach.PutBlob(ident, rest[0])];
        rest := rest[1..];
      }
      assert done == Attach.PutAll(ident, io.partials);
      ok := io.uploadOk;
      if ok {
        PutBlob(ident, files);
        ApplySnoc(old(Now()), done, Attach.PutBlob(ident, files));
      }
    }

    /** One artifact: the status, the writes and the new state are those of the specification. */
    method AttachOne(env: Attach.Env, params: Attach.Params, job: Attach.Job) returns (status: Attach.Status)
      modifies this
      ensures var step := Attach.AttachOne(env, params, old(rows), old(seen), job);
        && status == step.status && seen == step.seen
        && log == old(log) + step.writes && Now() == Attach.ApplyAll(old(Now()), step.writes)
    {
      var identified := env.identify(job.identity);
      if identified.Err? {
        return Attach.Failed(Attach.BadIdentity(identified.error));
      }
      var ident := identified.value;
      var id := FerroId(ident);
      var taken := false;
      if id in seen {
        if seen[id] != ident {
          return Attach.Failed(Attach.Collision);
        }
        taken := true;
      } else if !job.io.lookupOk {
        return Attach.Failed(Attach.LookupFailed);
      } else if id in rows {
        if !Attach.RowMatches(rows[id], ident) {
          return Attach.Failed(Attach.Collision);
        }
        taken := true;
      }
      if taken && !params.force {
        return Attach.SkippedExists;
      }
      match job.gate
      case StageError => status := Attach.Failed(Attach.NotStaged);
      case ReadError => status := Attach.Failed(Attach.NotReadable);
      case HashError => status := Attach.Failed(Attach.NotHashed);
      case Staged(files, numRows) =>
        if params.dryRun {
          seen := seen[id := ident];
          return Attach.WouldAttach(numRows);
        }
        status := Persist(env, ident, taken, files, numRows, job.io);
    }

    /** Persist first, commit only after a complete upload. */
    method Persist(env: Attach.Env, ident: SegmentIdent, taken: bool, files: Attach.Files, numRows: nat, io: Attach.Io)
      returns (status: Attach.Status)
      modifies this
      ensures var writes := Attach.Publish(env, ident, files, io);
        log == old(log) + writes && Now() == Attach.ApplyAll(old(Now()), writes)
      ensures status == if !io.uploadOk then Attach.Failed(Attach.UploadFailed(taken))
                        else if !io.row.Confirmed? then Attach.Failed(Attach.InsertFailed(taken))
                        else Attach.Attached(numRows, taken)
      ensures seen == if status.Attached? then old(seen)[FerroId(ident) := ident] else old(seen)
    {
      var sha256 := env.hash(files);
      var uploaded := Upload(ident, files, io);
      ghost var done := Attach.PutAll(ident, io.partials) + if uploaded then [Attach.PutBlob(ident, files)] else [];
      if !uploaded {
        assert Attach.Publish(env, ident, files, io) == done;
        return Attach.Failed(Attach.UploadFailed(taken));
      }
      if io.row.Refused? {
        assert Attach.Publish(env, ident, files, io) == done;
        return Attach.Failed(Attach.InsertFailed(taken));
      }
      CommitRow(ident, sha256);
      ApplySnoc(old(Now()), done, Attach.CommitRow(ident, sha256));
      assert Attach.Publish(env, ident, files, io) == done + [Attach.CommitRow(ident, sha256)];
      if io.row.Unconfirmed? {
        return Attach.Failed(Attach.InsertFailed(taken));
      }
      seen := seen[FerroId(ident) := ident];
      status := Attach.Attached(numRows, taken);
    }

    method AttachNext(env: Attach.Env, params: Attach.Params, job: Attach.Job) returns (outcome: Attach.Outcome)
      modifies this
      ensures var next := Attach.AttachNext(env, params, old(rows), old(seen), job);
        && outcome == next.0 && seen == next.2
        && log == old(log) + next.1 && Now() == Attach.ApplyAll(old(Now()), next.1)
    {
      if Attach.Filters(params, job.identity) {
        outcome := Attach.FilteredOut;
      } else {
        var status := AttachOne(env, params, job);
        outcome := Attach.Record(status);
      }
    }

    /** The next artifact of a run that has come to its i-th. */
    method AttachAt(env: Attach.Env, params: Attach.Params, jobs: seq<Attach.Job>, i: nat, before: seq<Attach.Outcome>,
                    ghost start: Attach.Moment, ghost done: seq<Attach.Write>)
      returns (outcomes: seq<Attach.Outcome>, ghost writes: seq<Attach.Write>)
      requires i < |jobs| && RanTo(env, params, start, jobs[..i], before, done, Now(), seen)
      modifies this
      ensures log == old(log) + writes
      ensures RanTo(env, params, start, jobs[..i + 1], outcomes, done + writes, Now(), seen)
    {
      RunSnoc(env, params, start, jobs[..i], jobs[i], before, done, Now(), seen);
      writes := Attach.AttachNext(env, params, rows, seen, jobs[i]).1;
      var outcome := AttachNext(env, params, jobs[i]);
      outcomes := before + [outcome];
      assert jobs[..i + 1] == jobs[..i] + [jobs[i]];
    }

    /** A whole run: the reports, the writes and the final state are those of the specification. */
    method Run(env: Attach.Env, params: Attach.Params, jobs: seq<Attach.Job>) returns (outcomes: seq<Attach.Outcome>)
      modifies this
      ensures var r := Attach.RunJobs(env, params, old(Now()), map[], jobs);
        outcomes == r.outcomes && log == old(log) + r.writes && Now() == r.end && seen == r.seen
    {
      outcomes, seen := [], map[];
      ghost var start, done: seq<Attach.Write> := Now(), [];
      var i := 0;
      while i < |jobs|
        invariant 0 <= i <= |jobs| && log == old(log) + done
        invariant RanTo(env, params, start, jobs[..i], outcomes, done, Now(), seen)
      {
        ghost var writes;
        outcomes, writes := AttachAt(env, params, jobs, i, outcomes, start, done);
        done, i := done + writes, i + 1;
      }
      assert jobs[..i] == jobs;
    }
  }

  ghost predicate RanTo(env: Attach.Env, params: Attach.Params, start: Attach.Moment, jobs: seq<Attach.Job>,
                        outcomes: seq<Attach.Outcome>, writes: seq<Attach.Write>, end: Attach.Moment,
                        seen: map<string, SegmentIdent>) {
    Attach.RunJobs(env, params, start, map[], jobs) == Attach.RunResult(outcomes, writes, end, seen)
  }

  /** One more artifact at the end of a run. */
  lemma RunSnoc(env: Attach.Env, params: Attach.Params, start: Attach.Moment, jobs: seq<Attach.Job>,
                job: Attach.Job, outcomes: seq<Attach.Outcome>, writes: seq<Attach.Write>,
                end: Attach.Moment, seen: map<string, SegmentIdent>)
    requires RanTo(env, params, start, jobs, outcomes, writes, end, seen)
    ensures var next := Attach.AttachNext(env, params, end.world.rows, seen, job);
      RanTo(env, params, start, jobs + [job], outcomes + [next.0], writes + next.1, Attach.ApplyAll(end, next.1),
            next.2)
  {
    RunSnocFrom(env, params, start, map[], jobs, job);
  }

  lemma RunSnocFrom(env: Attach.Env, params: Attach.Params, m: Attach.Moment,
                    seen: map<string, SegmentIdent>, jobs: seq<Attach.Job>, job: Attach.Job)
    ensures var r := Attach.RunJobs(env, params, m, seen, jobs);
      var next := Attach.AttachNext(env, params, r.end.world.rows, r.seen, job);
      Attach.RunJobs(env, params, m, seen, jobs + [job]) ==
      Attach.RunResult(r.outcomes + [next.0], r.writes + next.1, Attach.ApplyAll(r.end, next.1), next.2)
  {
    var step := (rows, seen, job) => Attach.AttachNext(env, params, rows, seen, job);
    RunIsFold(env, params, step, m, seen, jobs);
    RunIsFold(env, params, step, m, seen, jobs + [job]);
    FoldSnoc(step, m, seen, jobs, job);
  }

  type Stepper = (map<string, Attach.Row>, map<string, SegmentIdent>, Attach.Job) ->
    (Attach.Outcome, seq<Attach.Write>, map<string, SegmentIdent>)

  /** A run whose handling of one artifact is any function. */
  function Fold(step: Stepper, m: Attach.Moment, seen: map<string, SegmentIdent>, jobs: seq<Attach.Job>)
    : Attach.RunResult
    decreases |jobs|
  {
    if jobs == [] then Attach.RunResult([], [], m, seen)
    else
      var (outcome, writes, seen') := step(m.world.rows, seen, jobs[0]);
      var rest := Fold(step, Attach.ApplyAll(m, writes), seen', jobs[1..]);
      Attach.RunResult([outcome] + rest.outcomes, writes + rest.writes, rest.end, rest.seen)
  }

  lemma {:induction false} RunIsFold(env: Attach.Env, params: Attach.Params, step: Stepper, m: Attach.Moment,
                                     seen: map<string, SegmentIdent>, jobs: seq<Attach.Job>)
    requires forall rows, seen, job :: step(rows, seen, job) == Attach.AttachNext(env, params, rows, seen, job)
    ensures Attach.RunJobs(env, params, m, seen, jobs) == Fold(step, m, seen, jobs)
    decreases |jobs|
  {
    if jobs != [] {
      var (outcome, writes, seen') := step(m.world.rows, seen, jobs[0]);
      RunIsFold(env, params, step, Attach.ApplyAll(m, writes), seen', jobs[1..]);
    }
  }

  lemma {:induction false} FoldSnoc(step: Stepper, m: Attach.Moment, seen: map<string, SegmentIdent>,
                                    jobs: seq<Attach.Job>, job: Attach.Job)
    ensures var r := Fold(step, m, seen, jobs);
      var next := step(r.end.world.rows, r.seen, job);
      Fold(step, m, seen, jobs + [job]) ==
      Attach.RunResult(r.outcomes + [next.0], r.writes + next.1, Attach.ApplyAll(r.end, next.1), next.2)
    decreases |jobs|
  {
    if jobs == [] {
      assert jobs + [job] == [job];
    } else {
      var (outcome, writes, seen') := step(m.world.rows, seen, jobs[0]);
      assert (jobs + [job])[1..] == jobs[1..] + [job];
      FoldSnoc(step, Attach.ApplyAll(m, writes), seen', jobs[1..], job);
    }
  }

  lemma ApplySnoc(m: Attach.Moment, writes: seq<Attach.Write>, w: Attach.Write)
    ensures Attach.ApplyAll(m, writes + [w]) == Attach.Apply(Attach.ApplyAll(m, writes), w)
  {
    Attach.ApplyConcat(m, writes, [w]);
    assert [w][1..] == [];
  }
}
