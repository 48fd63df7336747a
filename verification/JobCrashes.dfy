/** Handlers are atomic in this model, also towards a crash. The store runs each statement
    by itself, so a process can stop between two of one handler. For each such place that matters: the
    state the next process finds, and what fails in it. */
module JobCrashes {
  import opened Options
  import opened JobTypes
  import opened EventTable
  import opened JobProtocol
  import opened JobInvariant
  import opened JobRuns
  import opened JobResults

  /** The event is inserted, the high-water mark not yet raised. */
  function StoppedInAppend(a: Agent, row: EventRow): Agent {
    Restart(a.(events := a.events + [row]))
  }

  /** The event is stored and is re-sent, but the number reported as last is one short, and
      the invariant does not hold. */
  lemma AppendStopped(c: Config, a: Agent, id: RunId, ev: EngineEvent)
    requires Inv(c, a) && id in a.runs && a.runs[id].live && !a.runs[id].fenced
    ensures var x, row := a.runs[id].attempt, NewRow(c, a.runs[id], ev);
            var b := StoppedInAppend(a, row);
            && x in b.attempts && row.seqNo == b.attempts[x].lastSeq + 1 && row in RowsOf(b.events, x)
            && !Inv(c, b)
  {
    hide NewRow, RowsOf, Bytes, Window, LogOk;
    var x, row := a.runs[id].attempt, NewRow(c, a.runs[id], ev);
    var b := StoppedInAppend(a, row);
    assert RunOk(a, id) && LocalOk(c, a, x);
    AppendRows(a.events, row, x);
    NewRowIsNext(c, a.runs[id], ev);
    TooLong(Log(b, x), RowsOf(a.events, x), row, x, b.attempts[x].job);
    assert Log(b, x) == Log(a, x);
    assert !LocalOk(c, b, x);
  }

  lemma NewRowIsNext(c: Config, run: Run, ev: EngineEvent)
    ensures NewRow(c, run, ev).attempt == run.attempt && NewRow(c, run, ev).seqNo == run.seqNo + 1
  {
  }

  /** A row that the log does not hold yet is not in its end. */
  lemma TooLong(log: seq<EventRow>, rows: seq<EventRow>, row: EventRow, x: AttemptId, job: JobId)
    requires LogOk(log, x, job) && row.seqNo == |log| + 1
    ensures !Window(log, rows + [row]) && row in rows + [row]
  {
    var more := rows + [row];
    assert more[|rows|] == row;
    if 0 < |log| {
      assert LogRowOk(log[|log| - 1], x, job, |log|);
      assert |more| <= |log| ==> log[|log| - |more|..][|rows|] == log[|log| - 1];
    }
  }

  /** The result is saved, the status not yet terminal. */
  function StoppedInReport(a: Agent, x: AttemptId, r: StoredResult): Agent {
    Restart(a.(results := a.results[x := r]))
  }

  /** The attempt is then reported twice: as active and as a pending result. */
  lemma ReportStopped(c: Config, a: Agent, x: AttemptId, r: StoredResult)
    requires Inv(c, a) && x in a.registry
    ensures var b := StoppedInReport(a, x, r); x in ActiveJobs(b) && x in PendingResults(b) && !Inv(c, b)
  {
    assert LocalOk(c, a, x);
    var b := StoppedInReport(a, x, r);
    assert !LocalOk(c, b, x);
  }

  /** The result is collected, the attempt's row not yet deleted. */
  function StoppedInCollect(a: Agent, x: AttemptId): Agent {
    Restart(a.(results := a.results - {x}))
  }

  /** The attempt is then reported nowhere, and no ack removes its row. */
  lemma CollectStopped(c: Config, a: Agent, x: AttemptId, now: int, lease: LeaseId, digest: Digest)
    requires Inv(c, a) && x in a.results
    ensures var b := StoppedInCollect(a, x);
            && x in b.attempts && x !in ActiveJobs(b) && x !in PendingResults(b) && !Inv(c, b)
            && ResultAck(b, now, x, lease, digest) == Quiet(b)
  {
    assert LocalOk(c, a, x);
    var b := StoppedInCollect(a, x);
    assert !LocalOk(c, b, x);
  }

  /** The attempt's row is deleted, its events not yet. */
  function StoppedInDelete(a: Agent, x: AttemptId): Agent {
    Restart(a.(attempts := a.attempts - {x}, results := a.results - {x}))
  }

  /** Its unacknowledged events stay, count against the connection cap, and belong to no
      attempt; so the invariant holds exactly if there were none. */
  lemma DeleteStopped(c: Config, a: Agent, x: AttemptId)
    requires Inv(c, a)
    ensures var b := StoppedInDelete(a, x);
            && x !in b.attempts && RowsOf(b.events, x) == RowsOf(a.events, x) && Bytes(b.events) == Bytes(a.events)
            && (Inv(c, b) <==> RowsOf(a.events, x) == [])
  {
    var b := StoppedInDelete(a, x);
    if RowsOf(a.events, x) == [] {
      forall y: AttemptId ensures LocalOk(c, b, y) {
        assert LocalOk(c, a, y);
        if y in b.attempts { assert Log(b, y) == Log(a, y); }
      }
    } else {
      assert !LocalOk(c, b, x);
    }
  }

  /** The directive's lease is adopted, the pending result not yet re-stamped. */
  function StoppedInResend(a: Agent, now: int, x: AttemptId, lease: LeaseId): Agent {
    Restart(AdoptLease(a, now, x, lease))
  }

  /** The invariant holds, but an echo of the result is refused until it is re-stamped,
      exactly if the directive brought another lease than the result has. */
  lemma ResendStopped(c: Config, a: Agent, now: int, x: AttemptId, lease: LeaseId)
    requires Inv(c, a) && x in a.results
    ensures var b := StoppedInResend(a, now, x, lease);
            && Inv(c, b) && x in b.results && b.results[x] == a.results[x]
            && (x in ResultAck(b, now, x, a.results[x].payload.body.lease, a.results[x].digest).agent.results
                <==> lease != a.results[x].lease)
  {
    assert LocalOk(c, a, x);
    InvAdopted(c, a, now, x, Some(lease));
    InvRestart(c, AdoptLease(a, now, x, lease));
    var b := StoppedInResend(a, now, x, lease);
    assert b.results == a.results && x in b.attempts && b.attempts[x].lease == lease;
    AckCollectsIff(c, b, now, x, a.results[x].payload.body.lease, a.results[x].digest);
  }
}
