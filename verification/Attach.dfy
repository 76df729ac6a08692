/** Attaching segments: what one run decides for each artifact, and what it writes durably. */
module Attach {

  import opened Common
  import opened SegmentIdentity

  /** The files of one segment, by name. */
  type Files = map<string, string>

  datatype Row = Row(dataSource: string, start: string, end: string, version: string, used: bool, sha256: string)

  /** The metadata rows by segment id, and the deep-storage blobs by data source and segment id. */
  datatype World = World(rows: map<string, Row>, blobs: map<(string, string), Files>)

  /** How artifacts are identified and file sets hashed. What follows holds for any way of doing either. */
  datatype Env = Env(identify: Identity -> Result<SegmentIdent, IdentityError>, hash: Files -> string)

  /** The identification of this tool, for some reading of ISO-8601 instants. */
  function ToolEnv(instant: string -> Option<int>, hash: Files -> string): Env {
    Env(identity => Identify(instant, identity), hash)
  }

  /** What staging, reading and hashing one artifact came to. */
  datatype Gate = StageError | ReadError | HashError | Staged(files: Files, numRows: nat)

  /** A row write is refused, or it is made and confirmed, or it is made and its confirmation is lost. */
  datatype RowWrite = Refused | Unconfirmed | Confirmed

  /** What the store and the storage did: whether the lookup worked, the contents the blob went
      through during the upload, whether the upload worked, and what became of the row write. */
  datatype Io = Io(lookupOk: bool, partials: seq<Files>, uploadOk: bool, row: RowWrite)

  datatype Job = Job(identity: Identity, gate: Gate, io: Io)
  datatype Params = Params(dryRun: bool, force: bool, datasource: Option<string>)

  datatype Reason =
    | BadIdentity(error: IdentityError)
    | Collision
    | LookupFailed
    | NotStaged
    | NotReadable
    | NotHashed
    | UploadFailed(replacing: bool)
    | InsertFailed(replacing: bool)

  datatype Status =
    | Attached(numRows: nat, replaced: bool)
    | WouldAttach(numRows: nat)
    | SkippedExists
    | Failed(reason: Reason)

  /** The report of one artifact, or none when the data source filter leaves it out. */
  datatype Outcome = FilteredOut | Record(status: Status)

  // ----- Deciding -------------------------------------------------------------------------

  predicate RowMatches(row: Row, i: SegmentIdent) {
    row.dataSource == i.dataSource && row.start == i.start && row.end == i.end && row.version == i.version
  }

  datatype Decision = Stop(status: Status) | Go(ident: SegmentIdent, exists_: bool, files: Files, numRows: nat)

  /** Whether the id is taken by this very segment. */
  function Lookup(rows: map<string, Row>, seen: map<string, SegmentIdent>, ident: SegmentIdent, lookupOk: bool)
    : Result<bool, Reason>
  {
    var id := FerroId(ident);
    if id in seen then if seen[id] == ident then Ok(true) else Err(Collision)
    else if !lookupOk then Err(LookupFailed)
    else if id in rows then if RowMatches(rows[id], ident) then Ok(true) else Err(Collision)
    else Ok(false)
  }

  function Decide(env: Env, force: bool, rows: map<string, Row>, seen: map<string, SegmentIdent>, job: Job): Decision {
    var ident := env.identify(job.identity);
    if ident.Err? then Stop(Failed(BadIdentity(ident.error)))
    else
      var taken := Lookup(rows, seen, ident.value, job.io.lookupOk);
      if taken.Err? then Stop(Failed(taken.error))
      else if taken.value && !force then Stop(SkippedExists)
      else
        match job.gate
        case StageError => Stop(Failed(NotStaged))
        case ReadError => Stop(Failed(NotReadable))
        case HashError => Stop(Failed(NotHashed))
        case Staged(files, numRows) => Go(ident.value, taken.value, files, numRows)
  }

  // ----- Writing --------------------------------------------------------------------------

  /** One durable write: new content of a segment's blob, or its row. */
  datatype Write = PutBlob(ident: SegmentIdent, files: Files) | CommitRow(ident: SegmentIdent, sha256: string)

  /** The world, and the ids whose replacement was begun and not finished since. */
  datatype Moment = Moment(world: World, begun: set<string>)

  function BlobKey(i: SegmentIdent): (string, string) { (i.dataSource, FerroId(i)) }

  function RowOf(i: SegmentIdent, sha256: string): Row {
    Row(i.dataSource, i.start, i.end, i.version, true, sha256)
  }

  function Apply(m: Moment, w: Write): Moment {
    var id := FerroId(w.ident);
    match w
    case PutBlob(ident, files) =>
      Moment(World(m.world.rows, m.world.blobs[BlobKey(ident) := files]),
             if id in m.world.rows then m.begun + {id} else m.begun)
    case CommitRow(ident, sha256) =>
      Moment(World(m.world.rows[id := RowOf(ident, sha256)], m.world.blobs), m.begun - {id})
  }

  function ApplyAll(m: Moment, writes: seq<Write>): Moment
    decreases |writes|
  {
    if writes == [] then m else ApplyAll(Apply(m, writes[0]), writes[1..])
  }

  function PutAll(ident: SegmentIdent, contents: seq<Files>): seq<Write> {
    if contents == [] then [] else [PutBlob(ident, contents[0])] + PutAll(ident, contents[1..])
  }

  /** The writes of one segment: the upload, and the row only once the upload is complete. */
  function Publish(env: Env, ident: SegmentIdent, files: Files, io: Io): seq<Write> {
    PutAll(ident, io.partials)
    + if !io.uploadOk then []
      else [PutBlob(ident, files)] + if !io.row.Refused? then [CommitRow(ident, env.hash(files))] else []
  }

  // ----- One run --------------------------------------------------------------------------

  datatype Step = Step(status: Status, writes: seq<Write>, seen: map<string, SegmentIdent>)

  function AttachOne(env: Env, params: Params, rows: map<string, Row>, seen: map<string, SegmentIdent>, job: Job): Step
  {
    match Decide(env, params.force, rows, seen, job)
    case Stop(status) => Step(status, [], seen)
    case Go(ident, exists_, files, numRows) =>
      var seen' := seen[FerroId(ident) := ident];
      if params.dryRun then Step(WouldAttach(numRows), [], seen')
      else
        var writes := Publish(env, ident, files, job.io);
        if !job.io.uploadOk then Step(Failed(UploadFailed(exists_)), writes, seen)
        else if !job.io.row.Confirmed? then Step(Failed(InsertFailed(exists_)), writes, seen)
        else Step(Attached(numRows, exists_), writes, seen')
  }

  /** The data source filter applies only to artifacts whose data source is known. */
  predicate Filters(params: Params, identity: Identity) {
    params.datasource.Some? && identity.dataSource.Some? && identity.dataSource.value != params.datasource.value
  }

  function AttachNext(env: Env, params: Params, rows: map<string, Row>, seen: map<string, SegmentIdent>, job: Job)
    : (Outcome, seq<Write>, map<string, SegmentIdent>)
  {
    if Filters(params, job.identity) then (FilteredOut, [], seen)
    else
      var step := AttachOne(env, params, rows, seen, job);
      (Record(step.status), step.writes, step.seen)
  }

  datatype RunResult = RunResult(outcomes: seq<Outcome>, writes: seq<Write>, end: Moment,
                                 seen: map<string, SegmentIdent>)

  function RunJobs(env: Env, params: Params, m: Moment, seen: map<string, SegmentIdent>, jobs: seq<Job>): RunResult
    decreases |jobs|
  {
    if jobs == [] then RunResult([], [], m, seen)
    else
      var (outcome, writes, seen') := AttachNext(env, params, m.world.rows, seen, jobs[0]);
      var rest := RunJobs(env, params, ApplyAll(m, writes), seen', jobs[1..]);
      RunResult([outcome] + rest.outcomes, writes + rest.writes, rest.end, rest.seen)
  }

  // ----- Runs one after another ---------------------------------------------------------------

  /** A run over some artifacts that crashes after some number of durable writes, unless it ends first. */
  datatype Run = Run(params: Params, jobs: seq<Job>, crashAfter: nat)

  function Survived(writes: seq<Write>, crashAfter: nat): seq<Write> {
    if crashAfter < |writes| then writes[..crashAfter] else writes
  }

  function RunWrites(env: Env, m: Moment, run: Run): seq<Write> {
    Survived(RunJobs(env, run.params, m, map[], run.jobs).writes, run.crashAfter)
  }

  function After(env: Env, m: Moment, runs: seq<Run>): Moment
    decreases |runs|
  {
    if runs == [] then m else After(env, ApplyAll(m, RunWrites(env, m, runs[0])), runs[1..])
  }

  lemma {:induction false} ApplyConcat(m: Moment, xs: seq<Write>, ys: seq<Write>)
    ensures ApplyAll(m, xs + ys) == ApplyAll(ApplyAll(m, xs), ys)
    decreases |xs|
  {
    if xs == [] {
      assert xs + ys == ys;
    } else {
      assert (xs + ys)[1..] == xs[1..] + ys;
      ApplyConcat(Apply(m, xs[0]), xs[1..], ys);
    }
  }

  /** The run ends in the world its writes make. */
  lemma {:induction false} RunEndsWhereItsWritesLead(env: Env, params: Params, m: Moment,
                                                     seen: map<string, SegmentIdent>, jobs: seq<Job>)
    ensures RunJobs(env, params, m, seen, jobs).end == ApplyAll(m, RunJobs(env, params, m, seen, jobs).writes)
    decreases |jobs|
  {
    if jobs != [] {
      var (outcome, writes, seen') := AttachNext(env, params, m.world.rows, seen, jobs[0]);
      var m' := ApplyAll(m, writes);
      RunEndsWhereItsWritesLead(env, params, m', seen', jobs[1..]);
      ApplyConcat(m, writes, RunJobs(env, params, m', seen', jobs[1..]).writes);
    }
  }
}
