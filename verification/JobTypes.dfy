/** Values shared by the durable job protocol: identifiers, engine events and
    outcomes, the wire messages a run produces, and the rows of the three tables.

    Identifiers (attempt, job, lease, run) are only ever compared for equality, so
    they are numbers here.  A run is named by its `agent_run_id`: it is drawn fresh
    when the `JobState` is created, so it stands for the identity of that object. */
module JobTypes {
  import opened Options

  type AttemptId = nat
  type JobId = nat
  type LeaseId = nat
  type RunId = nat
  type Digest = string

  datatype Status = Accepted | Starting | Running | Cancelling | Cancelled | Completed | Failed

  predicate IsTerminal(s: Status) {
    s.Cancelled? || s.Completed? || s.Failed?
  }

  datatype EngineEvent = EngineEvent(kind: string, body: string)

  datatype Outcome =
    | Success(exitCode: Option<int>)
    | Error(exitCode: Option<int>, errorKind: Option<string>)
    | CancelledOutcome

  datatype FinalStatus = FinalSuccess | FinalError | FinalCancelled

  datatype RejectCode =
    | RootNotAllowlisted | EngineUnavailable | Busy | StaleLease | BadRequest | PolicyViolation

  datatype EventId = EventId(attempt: AttemptId, seqNo: nat)

  /** Everything of a `job.result` that enters its digest. */
  datatype ResultBody = ResultBody(
    job: JobId, attempt: AttemptId, lease: LeaseId,
    finalStatus: FinalStatus, exitCode: Option<int>, errorKind: Option<string>,
    duration: int, eventCount: nat, bytes: nat)

  /** `envelope` stands for the `id` and `ts` that every send stamps afresh. */
  datatype ResultMsg = ResultMsg(envelope: nat, body: ResultBody)

  datatype Msg =
    | JobAccept(job: JobId, attempt: AttemptId, lease: LeaseId, run: RunId)
    | JobReject(job: JobId, attempt: AttemptId, lease: LeaseId, code: RejectCode)
    | JobStatus(job: JobId, attempt: AttemptId, lease: LeaseId, status: Status)
    | StreamEvent(job: JobId, attempt: AttemptId, lease: LeaseId, seqNo: nat, eventId: EventId, event: EngineEvent)
    | JobResult(result: ResultMsg)

  function AttemptOf(m: Msg): AttemptId {
    match m
    case JobResult(r) => r.body.attempt
    case _ => m.attempt
  }

  function LeaseOf(m: Msg): LeaseId {
    match m
    case JobResult(r) => r.body.lease
    case _ => m.lease
  }

  /** The calls a handler makes on an engine run. */
  datatype EngineCall =
    | Start(run: RunId)
    | Pause(run: RunId)
    | Resume(run: RunId)
    | Cancel(run: RunId, grace: nat)

  datatype Attempt = Attempt(job: JobId, lease: LeaseId, run: RunId, status: Status, createdAt: int, lastSeq: nat)

  datatype EventRow = EventRow(attempt: AttemptId, seqNo: nat, eventId: EventId, bytes: nat, payload: Msg)

  datatype StoredResult = StoredResult(
    job: JobId, lease: LeaseId, finalStatus: FinalStatus, digest: Digest, size: nat,
    payload: ResultMsg, lastSeq: nat)

  /** The in-memory record of one run. `live` is `run !== null`. */
  datatype Run = Run(
    job: JobId, attempt: AttemptId, lease: LeaseId, status: Status,
    seqNo: nat, totalBytes: nat, live: bool, paused: bool, fenced: bool,
    prevLease: Option<LeaseId>, overlapUntil: int)

  const LEASE_ROTATION_OVERLAP_MS: int := 5_000

  /** What the daemon is configured with; `size` is the UTF-8 length of a serialized
      message and `digest` the hash of its canonical form. */
  datatype Config = Config(
    maxEvents: nat, maxBytes: nat, maxConn: nat, maxConcurrent: nat, gateAvailable: bool,
    size: Msg -> nat, digest: ResultBody -> Digest)
}
