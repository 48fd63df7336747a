/** The job manager as functions on values: what every handler and every engine
    callback does to the durable tables, the registry and the run records, which
    messages it sends and which calls it makes on the engine.

    JavaScript runs each handler to completion, so each is one atomic step with one
    reading of the clock. */
module JobProtocol {
  import opened Options
  import opened JobTypes
  import opened EventTable

  /** Durable tables, in-memory registry and run records. `emitted` is a history
      variable: every row each run ever produced; no handler reads it. */
  datatype Agent = Agent(
    attempts: map<AttemptId, Attempt>,
    events: seq<EventRow>,
    results: map<AttemptId, StoredResult>,
    registry: map<AttemptId, RunId>,
    runs: map<RunId, Run>,
    started: map<AttemptId, int>,
    nextId: nat,
    emitted: map<RunId, seq<EventRow>>)

  datatype Out = Out(agent: Agent, sent: seq<Msg>, calls: seq<EngineCall>)

  function Quiet(a: Agent): Out {
    Out(a, [], [])
  }

  const EmptyAgent: Agent := Agent(map[], [], map[], map[], map[], map[], 0, map[])

  function Lookup(a: Agent, x: AttemptId): Option<Run> {
    if x in a.registry && a.registry[x] in a.runs then Some(a.runs[a.registry[x]]) else None
  }

  function OverCap(c: Config, a: Agent, x: AttemptId): bool {
    || |RowsOf(a.events, x)| >= c.maxEvents
    || Bytes(RowsOf(a.events, x)) >= c.maxBytes
    || Bytes(a.events) >= c.maxConn
  }

  /** An inbound message is accepted under the current lease, or under the previous
      one inside the overlap window; without a live run the durable lease decides. */
  function LeaseOk(a: Agent, now: int, x: AttemptId, incoming: LeaseId): bool {
    match Lookup(a, x)
    case Some(run) =>
      || incoming == run.lease
      || (run.prevLease == Some(incoming) && now < run.overlapUntil)
    case None => x in a.attempts && a.attempts[x].lease == incoming
  }

  function SetStatus(a: Agent, x: AttemptId, s: Status): Agent {
    if x in a.attempts then a.(attempts := a.attempts[x := a.attempts[x].(status := s)]) else a
  }

  function SetLease(a: Agent, x: AttemptId, lease: LeaseId): Agent {
    if x in a.attempts then a.(attempts := a.attempts[x := a.attempts[x].(lease := lease)]) else a
  }

  function DeleteAttempt(a: Agent, x: AttemptId): Agent {
    a.(attempts := a.attempts - {x}, events := Dropped(a.events, x))
  }

  // ---- job.assign ----

  /** `gated` says that the job needs the approval gate; `rejection` is the answer of
      the engine's own validation. */
  datatype AssignMsg = AssignMsg(
    job: JobId, attempt: AttemptId, lease: LeaseId, gated: bool, rejection: Option<RejectCode>)

  /** The lease and the run id of an attempt already accepted: the registry is asked
      first, then the durable row. */
  function Existing(a: Agent, x: AttemptId): Option<(LeaseId, RunId)> {
    match Lookup(a, x)
    case Some(run) => Some((run.lease, a.registry[x]))
    case None => if x in a.attempts then Some((a.attempts[x].lease, a.attempts[x].run)) else None
  }

  function Admit(c: Config, a: Agent, m: AssignMsg): Option<RejectCode> {
    if |a.registry| >= c.maxConcurrent then Some(Busy)
    else if m.rejection.Some? then m.rejection
    else if !c.gateAvailable && m.gated then Some(PolicyViolation)
    else None
  }

  function Begin(a: Agent, now: int, m: AssignMsg): Out {
    var id := a.nextId;
    var run := Run(m.job, m.attempt, m.lease, Running, 0, 0, true, false, false, None, 0);
    Out(
      a.(attempts := a.attempts[m.attempt := Attempt(m.job, m.lease, id, Running, now, 0)],
         registry := a.registry[m.attempt := id],
         runs := a.runs[id := run],
         started := a.started[m.attempt := now],
         nextId := id + 1,
         emitted := a.emitted[id := []]),
      [JobAccept(m.job, m.attempt, m.lease, id), JobStatus(m.job, m.attempt, m.lease, Running)],
      [Start(id)])
  }

  function Assign(c: Config, a: Agent, now: int, m: AssignMsg): Out {
    match Existing(a, m.attempt)
    case Some((lease, run)) =>
      if lease != m.lease then Out(a, [JobReject(m.job, m.attempt, m.lease, StaleLease)], [])
      else Out(a, [JobAccept(m.job, m.attempt, lease, run)], [])
    case None =>
      match Admit(c, a, m)
      case Some(code) => Out(a, [JobReject(m.job, m.attempt, m.lease, code)], [])
      case None => Begin(a, now, m)
  }

  // ---- engine callbacks ----

  function EventMsg(run: Run, seqNo: nat, ev: EngineEvent): Msg {
    StreamEvent(run.job, run.attempt, run.lease, seqNo, EventId(run.attempt, seqNo), ev)
  }

  function NewRow(c: Config, run: Run, ev: EngineEvent): EventRow {
    var msg := EventMsg(run, run.seqNo + 1, ev);
    EventRow(run.attempt, run.seqNo + 1, EventId(run.attempt, run.seqNo + 1), c.size(msg), msg)
  }

  function Emitted(a: Agent, id: RunId): seq<EventRow> {
    if id in a.emitted then a.emitted[id] else []
  }

  function Append(a: Agent, row: EventRow): Agent {
    var attempts :=
      if row.attempt in a.attempts && a.attempts[row.attempt].lastSeq < row.seqNo
      then a.attempts[row.attempt := a.attempts[row.attempt].(lastSeq := row.seqNo)]
      else a.attempts;
    a.(events := a.events + [row], attempts := attempts)
  }

  function OnEvent(c: Config, a: Agent, id: RunId, ev: EngineEvent): Out
    requires id in a.runs
  {
    var run := a.runs[id];
    if run.fenced then Quiet(a)
    else
      var row := NewRow(c, run, ev);
      var run1 := run.(seqNo := row.seqNo, totalBytes := run.totalBytes + row.bytes);
      var a1 := Append(a, row).(runs := a.runs[id := run1], emitted := a.emitted[id := Emitted(a, id) + [row]]);
      if OverCap(c, a1, run.attempt) then
        Out(a1.(runs := a1.runs[id := run1.(paused := true)]), [row.payload], if run.live then [Pause(id)] else [])
      else
        Out(a1, [row.payload], [])
  }

  function FinalStatusOf(o: Outcome): FinalStatus {
    match o
    case Success(_) => FinalSuccess
    case CancelledOutcome => FinalCancelled
    case Error(_, _) => FinalError
  }

  function TerminalStatusOf(f: FinalStatus): Status {
    match f
    case FinalSuccess => Completed
    case FinalCancelled => Cancelled
    case FinalError => Failed
  }

  function ResultOf(run: Run, o: Outcome, duration: int): ResultBody {
    ResultBody(
      run.job, run.attempt, run.lease, FinalStatusOf(o),
      if o.CancelledOutcome? then None else o.exitCode,
      if o.Error? then o.errorKind else None,
      duration, run.seqNo, run.totalBytes)
  }

  function OnDone(c: Config, a: Agent, now: int, id: RunId, o: Outcome): Out
    requires id in a.runs
  {
    var run := a.runs[id];
    var x := run.attempt;
    var current := x in a.registry && a.registry[x] == id;
    var since := if x in a.started then a.started[x] else now;
    var ended := run.(live := false);
    var a1 := a.(
      runs := a.runs[id := ended],
      started := if current then a.started - {x} else a.started,
      registry := if current then a.registry - {x} else a.registry);
    if run.fenced then Quiet(a1)
    else
      var body := ResultOf(run, o, now - since);
      var msg := ResultMsg(a.nextId, body);
      var status := TerminalStatusOf(body.finalStatus);
      var stored := StoredResult(
        run.job, run.lease, body.finalStatus, c.digest(body), c.size(JobResult(msg)), msg, run.seqNo);
      var a2 := a1.(
        runs := a.runs[id := ended.(status := status)],
        results := a.results[x := stored],
        nextId := a.nextId + 1);
      Out(SetStatus(a2, x, status), [JobResult(msg)], [])
  }

  // ---- acknowledgements ----

  function StreamAck(c: Config, a: Agent, now: int, x: AttemptId, lease: LeaseId, k: nat): Out {
    if !LeaseOk(a, now, x, lease) then Quiet(a)
    else
      var a1 := a.(events := Acked(a.events, x, k));
      if Lookup(a, x).Some? && Lookup(a, x).value.paused && !OverCap(c, a1, x) then
        var id := a.registry[x];
        Out(a1.(runs := a.runs[id := a.runs[id].(paused := false)]), [], if a.runs[id].live then [Resume(id)] else [])
      else
        Quiet(a1)
  }

  function ResultAck(a: Agent, now: int, x: AttemptId, lease: LeaseId, digest: Digest): Out {
    if !LeaseOk(a, now, x, lease) then Quiet(a)
    else if x !in a.results || a.results[x].digest != digest then Quiet(a)
    else
      Quiet(DeleteAttempt(a, x).(results := a.results - {x}, registry := a.registry - {x}, started := a.started - {x}))
  }

  // ---- leases ----

  function Rotate(run: Run, lease: LeaseId, now: int): Run {
    run.(prevLease := Some(run.lease), lease := lease, overlapUntil := now + LEASE_ROTATION_OVERLAP_MS)
  }

  /** A resume directive's lease becomes current, durably and on the live run. */
  function AdoptLease(a: Agent, now: int, x: AttemptId, lease: LeaseId): Agent {
    var a1 := SetLease(a, x, lease);
    if Lookup(a, x).Some? && Lookup(a, x).value.lease != lease then
      a1.(runs := a.runs[a.registry[x] := Rotate(Lookup(a, x).value, lease, now)])
    else a1
  }

  function LeaseGranted(a: Agent, now: int, x: AttemptId, lease: LeaseId): Out {
    if Lookup(a, x).None? then Quiet(a)
    else Quiet(SetLease(a.(runs := a.runs[a.registry[x] := Rotate(Lookup(a, x).value, lease, now)]), x, lease))
  }

  function CancelJob(a: Agent, now: int, x: AttemptId, lease: LeaseId, grace: nat): Out {
    if Lookup(a, x).None? || !LeaseOk(a, now, x, lease) then Quiet(a)
    else
      var id := a.registry[x];
      var run := a.runs[id];
      Out(SetStatus(a.(runs := a.runs[id := run.(status := Cancelling)]), x, Cancelling),
          [JobStatus(run.job, run.attempt, run.lease, Cancelling)],
          if run.live then [Cancel(id, grace)] else [])
  }

  /** Fence the live run of `x` and forget it, without touching the tables. */
  function Fence(a: Agent, x: AttemptId): Out {
    if Lookup(a, x).None? then Quiet(a)
    else
      var id := a.registry[x];
      Out(a.(runs := a.runs[id := a.runs[id].(fenced := true)], registry := a.registry - {x}, started := a.started - {x}),
          [], if a.runs[id].live then [Cancel(id, 0)] else [])
  }

  function Revoke(a: Agent, now: int, x: AttemptId, lease: LeaseId): Out {
    if Lookup(a, x).None? || !LeaseOk(a, now, x, lease) then Quiet(a)
    else
      var o := Fence(a, x);
      Out(DeleteAttempt(o.agent, x), [], o.calls)
  }

  // ---- hello.accepted.resume[] ----

  datatype Directive =
    | ResumeFrom(attempt: AttemptId, after: nat, newLease: Option<LeaseId>)
    | ResendResult(attempt: AttemptId, newLease: Option<LeaseId>)
    | AckPending(attempt: AttemptId)
    | Abandon(attempt: AttemptId)

  /** A stored payload is sent again under the directive's lease. */
  function Restamp(m: Msg, lease: Option<LeaseId>): Msg {
    if lease.None? then m
    else match m
      case JobAccept(j, x, _, run) => JobAccept(j, x, lease.value, run)
      case JobReject(j, x, _, code) => JobReject(j, x, lease.value, code)
      case JobStatus(j, x, _, status) => JobStatus(j, x, lease.value, status)
      case StreamEvent(j, x, _, n, id, ev) => StreamEvent(j, x, lease.value, n, id, ev)
      case JobResult(r) => JobResult(r.(body := r.body.(lease := lease.value)))
  }

  function Payloads(rows: seq<EventRow>, lease: Option<LeaseId>): (r: seq<Msg>)
    ensures |r| == |rows|
    ensures forall i :: 0 <= i < |r| ==> r[i] == Restamp(rows[i].payload, lease)
  {
    if rows == [] then []
    else Payloads(rows[..|rows| - 1], lease) + [Restamp(rows[|rows| - 1].payload, lease)]
  }

  function Adopted(a: Agent, now: int, x: AttemptId, lease: Option<LeaseId>): Agent {
    if lease.Some? then AdoptLease(a, now, x, lease.value) else a
  }

  /** The stored result with a fresh envelope and, when given, a new lease. */
  function Restamped(c: Config, r: StoredResult, lease: Option<LeaseId>, envelope: nat): StoredResult {
    var l := if lease.Some? then lease.value else r.payload.body.lease;
    var msg := ResultMsg(envelope, r.payload.body.(lease := l));
    r.(lease := l, digest := c.digest(msg.body), payload := msg, size := c.size(JobResult(msg)))
  }

  function Directed(c: Config, a: Agent, now: int, d: Directive): Out {
    match d
    case ResumeFrom(x, k, lease) =>
      var a1 := Adopted(a, now, x, lease);
      Out(a1, Payloads(EventsAfter(a1.events, x, k), lease), [])
    case ResendResult(x, lease) =>
      var a1 := Adopted(a, now, x, lease);
      if x !in a1.results then Quiet(a1)
      else
        var r := Restamped(c, a1.results[x], lease, a1.nextId);
        Out(a1.(results := a1.results[x := r], nextId := a1.nextId + 1), [JobResult(r.payload)], [])
    case AckPending(x) =>
      Quiet(DeleteAttempt(a, x).(results := a.results - {x}, registry := a.registry - {x}))
    case Abandon(x) =>
      var o := Fence(a, x);
      Out(DeleteAttempt(o.agent, x).(results := a.results - {x}), [], o.calls)
  }

  function ApplyResume(c: Config, a: Agent, now: int, ds: seq<Directive>): Out {
    if ds == [] then Quiet(a)
    else
      var o := ApplyResume(c, a, now, ds[..|ds| - 1]);
      var p := Directed(c, o.agent, now, ds[|ds| - 1]);
      Out(p.agent, o.sent + p.sent, o.calls + p.calls)
  }

  /** A new process on the old database: registry and run records are gone. */
  function Restart(a: Agent): Agent {
    a.(registry := map[], runs := map[], started := map[])
  }

  // ---- resume views ----

  /** `hello.active_jobs`: the rows in a non-terminal status. */
  function ActiveJobs(a: Agent): set<AttemptId> {
    set x | x in a.attempts && !IsTerminal(a.attempts[x].status)
  }

  function PendingResults(a: Agent): set<AttemptId> {
    a.results.Keys
  }
}
