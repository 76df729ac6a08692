/** Whole histories of runs: crash consistency, replacement by force, and what an id stands for. */
module AttachHistory {

  import opened Common
  import opened SegmentIdentity
  import opened Attach
  import opened AttachSafety

  // ----- Without force ----------------------------------------------------------------------

  lemma NothingBegunIsConsistent(env: Env, m: Moment)
    requires m.begun == {}
    ensures OnlyBegunMismatch(env, m) <==> Consistent(env, m.world)
  {
  }

  /** From a consistent store, after any number of runs without force, each ending or crashing anywhere,
      with any failures and any partial uploads: every used row's blob is complete and hashes to the
      recorded value, and nothing a row already stood for has been touched. */
  lemma {:induction false} CrashConsistency(env: Env, m: Moment, runs: seq<Run>)
    requires Consistent(env, m.world) && m.begun == {}
    requires forall i :: 0 <= i < |runs| ==> !runs[i].params.force
    ensures var m' := After(env, m, runs);
      Consistent(env, m'.world) && m'.begun == {} && Untouched(m.world, m'.world)
    decreases |runs|
  {
    if runs != [] {
      var writes := RunWrites(env, m, runs[0]);
      var m' := ApplyAll(m, writes);
      CrashedRunIsLawful(env, m, runs[0]);
      NothingBegunIsConsistent(env, m);
      WritesKeepMatch(env, false, m, writes);
      WritesTouchNothing(env, m, writes);
      NothingBegunIsConsistent(env, m');
      CrashConsistency(env, m', runs[1..]);
      UntouchedTransitive(m.world, m'.world, After(env, m, runs).world);
    }
  }

  /** What such a history leaves behind is only blobs that no row references: a blob that has changed
      and that a row references is complete and hashes to that row's recorded value. */
  lemma OnlyOrphansAreLeft(env: Env, m: Moment, runs: seq<Run>, id: string)
    requires Consistent(env, m.world) && m.begun == {}
    requires forall i :: 0 <= i < |runs| ==> !runs[i].params.force
    requires id in After(env, m, runs).world.rows
    ensures var w := After(env, m, runs).world;
      var key := (w.rows[id].dataSource, id);
      (key in m.world.blobs && key in w.blobs && m.world.blobs[key] == w.blobs[key])
      || (key !in m.world.blobs && key !in w.blobs) || BlobMatches(env, w, id)
  {
    CrashConsistency(env, m, runs);
  }

  // ----- With force -------------------------------------------------------------------------

  /** At any moment of any history, the rows whose blob does not match are among those whose
      replacement was begun and not finished since. */
  lemma {:induction false} MismatchesAreBegun(env: Env, m: Moment, runs: seq<Run>)
    requires OnlyBegunMismatch(env, m)
    ensures OnlyBegunMismatch(env, After(env, m, runs))
    decreases |runs|
  {
    if runs != [] {
      var writes := RunWrites(env, m, runs[0]);
      CrashedRunIsLawful(env, m, runs[0]);
      WritesKeepMatch(env, runs[0].params.force, m, writes);
      MismatchesAreBegun(env, ApplyAll(m, writes), runs[1..]);
    }
  }

  // ----- One segment per id -----------------------------------------------------------------

  function AllWrites(env: Env, m: Moment, runs: seq<Run>): seq<Write>
    decreases |runs|
  {
    if runs == [] then []
    else
      var writes := RunWrites(env, m, runs[0]);
      writes + AllWrites(env, ApplyAll(m, writes), runs[1..])
  }

  lemma {:induction false} ForceAllowsMore(env: Env, force: bool, m: Moment, writes: seq<Write>)
    requires AllLawful(env, force, m, writes)
    ensures AllLawful(env, true, m, writes)
    decreases |writes|
  {
    if writes != [] {
      ForceAllowsMore(env, force, Apply(m, writes[0]), writes[1..]);
    }
  }

  lemma {:induction false} HistoryIsLawful(env: Env, m: Moment, runs: seq<Run>)
    ensures AllLawful(env, true, m, AllWrites(env, m, runs))
    ensures After(env, m, runs) == ApplyAll(m, AllWrites(env, m, runs))
    decreases |runs|
  {
    if runs != [] {
      var writes := RunWrites(env, m, runs[0]);
      var m' := ApplyAll(m, writes);
      CrashedRunIsLawful(env, m, runs[0]);
      ForceAllowsMore(env, runs[0].params.force, m, writes);
      HistoryIsLawful(env, m', runs[1..]);
      LawfulConcat(env, true, m, writes, AllWrites(env, m', runs[1..]));
      ApplyConcat(m, writes, AllWrites(env, m', runs[1..]));
    }
  }

  /** The moment before a write, and that the write is lawful there. */
  lemma {:induction false} LawfulAt(env: Env, m: Moment, writes: seq<Write>, k: nat)
    requires AllLawful(env, true, m, writes) && k < |writes|
    ensures Lawful(env, true, ApplyAll(m, writes[..k]), writes[k])
    decreases k
  {
    if k > 0 {
      assert writes[..k][1..] == writes[1..][..k - 1];
      LawfulAt(env, Apply(m, writes[0]), writes[1..], k - 1);
    } else {
      assert writes[..k] == [];
    }
  }

  lemma RowKeptUntil(env: Env, m: Moment, writes: seq<Write>, k: nat)
    requires AllLawful(env, true, m, writes) && k <= |writes|
    ensures RowsKept(m.world, ApplyAll(m, writes[..k]).world)
  {
    LawfulPrefix(env, true, m, writes, k);
    WritesKeepRows(env, true, m, writes[..k]);
  }

  /** Whatever is written under an id that a row holds is for the segment of that row, whoever runs,
      with or without force, for the life of the store. */
  lemma RowsAreOnlyRewrittenForTheirSegment(env: Env, m: Moment, runs: seq<Run>, k: nat)
    requires k < |AllWrites(env, m, runs)|
    requires FerroId(AllWrites(env, m, runs)[k].ident) in m.world.rows
    ensures var ident := AllWrites(env, m, runs)[k].ident;
      RowMatches(m.world.rows[FerroId(ident)], ident)
  {
    HistoryIsLawful(env, m, runs);
    var writes := AllWrites(env, m, runs);
    LawfulAt(env, m, writes, k);
    RowKeptUntil(env, m, writes, k);
  }

  /** Once a row is committed under an id, every later write under that id, in any run, with or without
      force, is for the same structured identity, although different identities can share an id. */
  lemma IdIsBoundForLife(env: Env, m: Moment, runs: seq<Run>, i: nat, j: nat)
    requires i < j < |AllWrites(env, m, runs)|
    requires AllWrites(env, m, runs)[i].CommitRow?
    requires FerroId(AllWrites(env, m, runs)[i].ident) == FerroId(AllWrites(env, m, runs)[j].ident)
    ensures AllWrites(env, m, runs)[i].ident == AllWrites(env, m, runs)[j].ident
  {
    HistoryIsLawful(env, m, runs);
    BoundInWrites(env, m, AllWrites(env, m, runs), i, j);
  }

  lemma {:induction false} BoundInWrites(env: Env, m: Moment, writes: seq<Write>, i: nat, j: nat)
    requires AllLawful(env, true, m, writes) && i < j < |writes| && writes[i].CommitRow?
    requires FerroId(writes[i].ident) == FerroId(writes[j].ident)
    ensures writes[i].ident == writes[j].ident
    decreases i
  {
    var m', rest := Apply(m, writes[0]), writes[1..];
    if i > 0 {
      BoundInWrites(env, m', rest, i - 1, j - 1);
    } else {
      LawfulAt(env, m', rest, j - 1);
      RowKeptUntil(env, m', rest, j - 1);
      SameIdAndColumns(writes[0].ident, rest[j - 1].ident);
    }
  }

  // ----- Every begun replacement can be redone --------------------------------------------------

  /** The job stages a segment that the row under the id stands for. */
  ghost predicate Redoes(env: Env, rows: map<string, Row>, job: Job, id: string) {
    var ident := env.identify(job.identity);
    && job.gate.Staged? && ident.Ok? && FerroId(ident.value) == id
    && id in rows && RowMatches(rows[id], ident.value)
  }

  ghost predicate ComesFrom(env: Env, jobs: seq<Job>, w: Write) {
    exists job :: job in jobs && job.gate.Staged? && env.identify(job.identity) == Ok(w.ident)
  }

  ghost predicate BegunComesFrom(env: Env, jobs: seq<Job>, m: Moment) {
    forall id :: id in m.begun ==> exists job :: job in jobs && Redoes(env, m.world.rows, job, id)
  }

  lemma {:induction false} PutsAreFor(ident: SegmentIdent, contents: seq<Files>, w: Write)
    requires w in PutAll(ident, contents)
    ensures w.ident == ident
    decreases |contents|
  {
    if w != PutBlob(ident, contents[0]) {
      PutsAreFor(ident, contents[1..], w);
    }
  }

  lemma NextComesFrom(env: Env, params: Params, rows: map<string, Row>,
                      seen: map<string, SegmentIdent>, job: Job, w: Write)
    requires w in AttachNext(env, params, rows, seen, job).1
    ensures ComesFrom(env, [job], w)
  {
    var d := Decide(env, params.force, rows, seen, job);
    if w in PutAll(d.ident, job.io.partials) {
      PutsAreFor(d.ident, job.io.partials, w);
    }
    assert job in [job];
  }

  lemma {:induction false} RunComesFrom(env: Env, params: Params, m: Moment, seen: map<string, SegmentIdent>,
                                        jobs: seq<Job>, w: Write)
    requires w in RunJobs(env, params, m, seen, jobs).writes
    ensures ComesFrom(env, jobs, w)
    decreases |jobs|
  {
    var (outcome, writes, seen') := AttachNext(env, params, m.world.rows, seen, jobs[0]);
    if w in writes {
      NextComesFrom(env, params, m.world.rows, seen, jobs[0], w);
    } else {
      RunComesFrom(env, params, ApplyAll(m, writes), seen', jobs[1..], w);
    }
  }

  lemma WriteKeepsOrigin(env: Env, force: bool, jobs: seq<Job>, m: Moment, w: Write)
    requires Lawful(env, force, m, w) && ComesFrom(env, jobs, w) && BegunComesFrom(env, jobs, m)
    ensures BegunComesFrom(env, jobs, Apply(m, w))
  {
    var m' := Apply(m, w);
    WriteKeepsRows(env, force, m, w);
    forall id | id in m'.begun ensures exists job :: job in jobs && Redoes(env, m'.world.rows, job, id) {
      if id in m.begun {
        var job :| job in jobs && Redoes(env, m.world.rows, job, id);
        assert Redoes(env, m'.world.rows, job, id);
      } else {
        var job :| job in jobs && job.gate.Staged? && env.identify(job.identity) == Ok(w.ident);
        assert Redoes(env, m'.world.rows, job, id);
      }
    }
  }

  lemma {:induction false} WritesKeepOrigin(env: Env, force: bool, jobs: seq<Job>, m: Moment, writes: seq<Write>)
    requires AllLawful(env, force, m, writes) && BegunComesFrom(env, jobs, m)
    requires forall w :: w in writes ==> ComesFrom(env, jobs, w)
    ensures BegunComesFrom(env, jobs, ApplyAll(m, writes))
    decreases |writes|
  {
    if writes != [] {
      WriteKeepsOrigin(env, force, jobs, m, writes[0]);
      WritesKeepOrigin(env, force, jobs, Apply(m, writes[0]), writes[1..]);
    }
  }

  function AllJobs(runs: seq<Run>): seq<Job> {
    if runs == [] then [] else runs[0].jobs + AllJobs(runs[1..])
  }

  /** Whatever replacement is begun and unfinished was begun for an artifact of some run. */
  lemma {:induction false} HistoryKeepsOrigin(env: Env, jobs: seq<Job>, m: Moment, runs: seq<Run>)
    requires BegunComesFrom(env, jobs, m) && forall job :: job in AllJobs(runs) ==> job in jobs
    ensures BegunComesFrom(env, jobs, After(env, m, runs))
    decreases |runs|
  {
    if runs != [] {
      var writes := RunWrites(env, m, runs[0]);
      CrashedRunIsLawful(env, m, runs[0]);
      forall w | w in writes ensures ComesFrom(env, jobs, w) {
        RunComesFrom(env, runs[0].params, m, map[], runs[0].jobs, w);
        var job :| job in runs[0].jobs && job.gate.Staged? && env.identify(job.identity) == Ok(w.ident);
        assert job in AllJobs(runs);
      }
      WritesKeepOrigin(env, runs[0].params.force, jobs, m, writes);
      HistoryKeepsOrigin(env, jobs, ApplyAll(m, writes), runs[1..]);
    }
  }

  /** Every row and every blob of the store is that of a validated identity. */
  ghost predicate StoresValidated(instant: string -> Option<int>, world: World) {
    && (forall id :: id in world.rows ==> ValidRow(instant, id, world.rows[id]))
    && (forall key :: key in world.blobs ==> ValidBlob(instant, key))
  }

  ghost predicate ValidRow(instant: string -> Option<int>, id: string, row: Row) {
    exists a :: Validated(instant, a) && FerroId(a) == id && RowMatches(row, a)
  }

  ghost predicate ValidBlob(instant: string -> Option<int>, key: (string, string)) {
    exists a :: Validated(instant, a) && BlobKey(a) == key
  }

  lemma {:induction false} WritesStayValid(instant: string -> Option<int>, m: Moment, writes: seq<Write>)
    requires StoresValidated(instant, m.world)
    requires forall w :: w in writes ==> Validated(instant, w.ident)
    ensures StoresValidated(instant, ApplyAll(m, writes).world)
    decreases |writes|
  {
    if writes != [] {
      var w := writes[0];
      assert ValidBlob(instant, BlobKey(w.ident));
      assert w.CommitRow? ==> ValidRow(instant, FerroId(w.ident), RowOf(w.ident, w.sha256));
      WritesStayValid(instant, Apply(m, w), writes[1..]);
    }
  }

  /** Under the identification of this tool, no history brings anything but validated identities into
      the store, whatever descriptors and paths say. */
  lemma {:induction false} HistoryStaysValidated(instant: string -> Option<int>, hash: Files -> string, m: Moment,
                                                 runs: seq<Run>)
    requires StoresValidated(instant, m.world)
    ensures StoresValidated(instant, After(ToolEnv(instant, hash), m, runs).world)
    decreases |runs|
  {
    if runs != [] {
      var env := ToolEnv(instant, hash);
      var writes := RunWrites(env, m, runs[0]);
      forall w | w in writes ensures Validated(instant, w.ident) {
        RunComesFrom(env, runs[0].params, m, map[], runs[0].jobs, w);
        IdentifiedIffValidated(instant, w.ident);
      }
      WritesStayValid(instant, m, writes);
      HistoryStaysValidated(instant, hash, ApplyAll(m, writes), runs[1..]);
    }
  }

  /** The exception is real: a forced run that crashes after its first durable write leaves the old row
      with a blob that does not match, whenever those bytes hash to something else. */
  lemma ForcedCrashMismatches(env: Env, m: Moment, job: Job, id: string)
    requires Redoes(env, m.world.rows, job, id) && m.world.rows[id].used
    requires job.io.lookupOk && job.io.partials != [] && env.hash(job.io.partials[0]) != m.world.rows[id].sha256
    ensures !Consistent(env, After(env, m, [Run(Params(false, true, None), [job], 1)]).world)
  {
    var params, ident := Params(false, true, None), env.identify(job.identity).value;
    var put := PutBlob(ident, job.io.partials[0]);
    var writes := AttachNext(env, params, m.world.rows, map[], job).1;
    assert writes == Publish(env, ident, job.gate.files, job.io) && writes[0] == put;
    var run := Run(params, [job], 1);
    assert RunJobs(env, params, m, map[], [job]).writes == writes + [];
    assert RunWrites(env, m, run) == [put];
    assert ApplyAll(m, [put]) == Apply(m, put);
    assert After(env, m, [run]) == After(env, Apply(m, put), []);
    assert !BlobMatches(env, Apply(m, put).world, id);
  }

  // ----- A forced run without failures finishes what it handles -----------------------------------

  predicate FailureFree(io: Io) { io.lookupOk && io.uploadOk && io.row.Confirmed? }

  lemma {:induction false} UploadBegins(m: Moment, ident: SegmentIdent, contents: seq<Files>)
    ensures ApplyAll(m, PutAll(ident, contents)).begun <= m.begun + {FerroId(ident)}
    decreases |contents|
  {
    if contents != [] {
      var puts := PutAll(ident, contents);
      assert puts[1..] == PutAll(ident, contents[1..]);
      UploadBegins(Apply(m, puts[0]), ident, contents[1..]);
    }
  }

  lemma PublishFinishes(env: Env, m: Moment, ident: SegmentIdent, files: Files, io: Io)
    requires FailureFree(io)
    ensures ApplyAll(m, Publish(env, ident, files, io)).begun <= m.begun - {FerroId(ident)}
  {
    var puts, put, commit := PutAll(ident, io.partials), PutBlob(ident, files), CommitRow(ident, env.hash(files));
    assert Publish(env, ident, files, io) == puts + [put, commit];
    UploadBegins(m, ident, io.partials);
    ApplyConcat(m, puts, [put, commit]);
    var m' := ApplyAll(m, puts);
    assert [put, commit][1..] == [commit];
    assert ApplyAll(m', [put, commit]) == ApplyAll(Apply(m', put), [commit]);
    assert ApplyAll(Apply(m', put), [commit]) == Apply(Apply(m', put), commit);
  }

  lemma {:induction false} ForcedStepFinishes(env: Env, params: Params, m: Moment, seen: map<string, SegmentIdent>,
                                              job: Job, id: string)
    requires !params.dryRun && params.force && SeenIsStored(m.world.rows, seen) && FailureFree(job.io)
    ensures var m' := ApplyAll(m, AttachNext(env, params, m.world.rows, seen, job).1);
      && m'.begun <= m.begun
      && (Redoes(env, m.world.rows, job, id) && !Filters(params, job.identity) ==> id !in m'.begun)
  {
    var d := Decide(env, params.force, m.world.rows, seen, job);
    if !Filters(params, job.identity) && d.Go? {
      PublishFinishes(env, m, d.ident, d.files, job.io);
    }
    if Redoes(env, m.world.rows, job, id) {
      var ident := env.identify(job.identity).value;
      if id in seen {
        SameIdAndColumns(seen[id], ident);
      }
    }
  }

  lemma {:induction false} ForcedRunFinishes(env: Env, params: Params, m: Moment, seen: map<string, SegmentIdent>,
                                             jobs: seq<Job>, id: string)
    requires !params.dryRun && params.force && SeenIsStored(m.world.rows, seen)
    requires forall job :: job in jobs ==> FailureFree(job.io)
    ensures var m' := RunJobs(env, params, m, seen, jobs).end;
      && m'.begun <= m.begun
      && ((exists job :: job in jobs && Redoes(env, m.world.rows, job, id) && !Filters(params, job.identity)) ==>
            id !in m'.begun)
    decreases |jobs|
  {
    if jobs != [] {
      var (outcome, writes, seen') := AttachNext(env, params, m.world.rows, seen, jobs[0]);
      var m' := ApplyAll(m, writes);
      assert jobs[0] in jobs;
      ForcedStepFinishes(env, params, m, seen, jobs[0], id);
      NextIsLawful(env, params, m, seen, jobs[0]);
      WritesKeepRows(env, params.force, m, writes);
      ForcedRunFinishes(env, params, m', seen', jobs[1..], id);
      if job :| job in jobs && Redoes(env, m.world.rows, job, id) && !Filters(params, job.identity) {
        if job in jobs[1..] {
          assert Redoes(env, m'.world.rows, job, id);
        }
      }
    }
  }

  /** After any history, a failure-free forced run that handles again the artifacts of that history
      which could be staged leaves every used row with a complete, matching blob. */
  lemma ForcedRerunConverges(env: Env, m: Moment, runs: seq<Run>, again: Run)
    requires Consistent(env, m.world) && m.begun == {}
    requires again.params.force && !again.params.dryRun
    requires forall job :: job in again.jobs ==> FailureFree(job.io)
    requires forall job :: job in AllJobs(runs) && job.gate.Staged? ==>
      exists job' :: job' in again.jobs && job'.identity == job.identity && job'.gate.Staged?
                     && !Filters(again.params, job'.identity)
    ensures Consistent(env, RunJobs(env, again.params, After(env, m, runs), map[], again.jobs).end.world)
  {
    var m' := After(env, m, runs);
    NothingBegunIsConsistent(env, m);
    MismatchesAreBegun(env, m, runs);
    HistoryKeepsOrigin(env, AllJobs(runs), m, runs);
    var r := RunJobs(env, again.params, m', map[], again.jobs);
    RunIsLawful(env, again.params, m', map[], again.jobs);
    RunEndsWhereItsWritesLead(env, again.params, m', map[], again.jobs);
    WritesKeepMatch(env, true, m', r.writes);
    forall id ensures id !in r.end.begun {
      ForcedRunFinishes(env, again.params, m', map[], again.jobs, id);
      if id in m'.begun {
        var job :| job in AllJobs(runs) && Redoes(env, m'.world.rows, job, id);
        var job' :| job' in again.jobs && job'.identity == job.identity && job'.gate.Staged?
                    && !Filters(again.params, job'.identity);
        assert Redoes(env, m'.world.rows, job', id);
      }
    }
    NothingBegunIsConsistent(env, r.end);
  }
}
