/** Every run of the job manager: an arbitrary sequence of inbound messages, engine
    callbacks, resume lists and process restarts. */
module JobRuns {
  import opened JobTypes
  import opened EventTable
  import opened JobProtocol
  import opened JobInvariant

  datatype Input =
    | InAssign(now: int, m: AssignMsg)
    | InStreamAck(now: int, x: AttemptId, lease: LeaseId, k: nat)
    | InResultAck(now: int, x: AttemptId, lease: LeaseId, digest: Digest)
    | InGranted(now: int, x: AttemptId, lease: LeaseId)
    | InCancel(now: int, x: AttemptId, lease: LeaseId, grace: nat)
    | InRevoke(now: int, x: AttemptId, lease: LeaseId)
    | InResume(now: int, ds: seq<Directive>)
    | InEvent(now: int, id: RunId, ev: EngineEvent)
    | InDone(now: int, id: RunId, o: Outcome)
    | InRestart(now: int)

  /** The engine calls back only runs it still has, and nothing after it is done;
      `ack_pending` names only ended attempts. */
  ghost predicate Allowed(a: Agent, i: Input) {
    match i
    case InEvent(_, id, _) => id in a.runs && a.runs[id].live
    case InDone(_, id, _) => id in a.runs && a.runs[id].live
    case InResume(_, ds) => forall d :: d in ds ==> Ended(a, d)
    case _ => true
  }

  function React(c: Config, a: Agent, i: Input): Out
    requires i.InEvent? || i.InDone? ==> i.id in a.runs
  {
    match i
    case InAssign(now, m) => Assign(c, a, now, m)
    case InStreamAck(now, x, lease, k) => StreamAck(c, a, now, x, lease, k)
    case InResultAck(now, x, lease, digest) => ResultAck(a, now, x, lease, digest)
    case InGranted(now, x, lease) => LeaseGranted(a, now, x, lease)
    case InCancel(now, x, lease, grace) => CancelJob(a, now, x, lease, grace)
    case InRevoke(now, x, lease) => Revoke(a, now, x, lease)
    case InResume(now, ds) => ApplyResume(c, a, now, ds)
    case InEvent(_, id, ev) => OnEvent(c, a, id, ev)
    case InDone(now, id, o) => OnDone(c, a, now, id, o)
    case InRestart(_) => Quiet(Restart(a))
  }

  /** Every input is allowed in the state it meets. */
  ghost predicate Possible(c: Config, a: Agent, tr: seq<Input>)
    decreases |tr|
  {
    tr == [] || (Allowed(a, tr[0]) && Possible(c, React(c, a, tr[0]).agent, tr[1..]))
  }

  ghost function After(c: Config, a: Agent, tr: seq<Input>): Agent
    requires Possible(c, a, tr)
    decreases |tr|
  {
    if tr == [] then a else After(c, React(c, a, tr[0]).agent, tr[1..])
  }

  /** The one attempt an input is about. */
  function Subject(a: Agent, i: Input): AttemptId
    requires !i.InResume? && !i.InRestart?
    requires i.InEvent? || i.InDone? ==> i.id in a.runs
  {
    match i
    case InAssign(_, m) => m.attempt
    case InEvent(_, id, _) => a.runs[id].attempt
    case InDone(_, id, _) => a.runs[id].attempt
    case InStreamAck(_, x, _, _) => x
    case InResultAck(_, x, _, _) => x
    case InGranted(_, x, _) => x
    case InCancel(_, x, _, _) => x
    case InRevoke(_, x, _) => x
  }

  lemma InvReact(c: Config, a: Agent, i: Input)
    requires Inv(c, a) && Allowed(a, i)
    ensures Inv(c, React(c, a, i).agent)
    ensures !i.InResume? && !i.InRestart? ==> Elsewhere(a, React(c, a, i).agent, Subject(a, i))
  {
    match i
    case InAssign(now, m) => InvAssign(c, a, now, m);
    case InStreamAck(now, x, lease, k) => InvStreamAck(c, a, now, x, lease, k);
    case InResultAck(now, x, lease, digest) => InvResultAck(c, a, now, x, lease, digest);
    case InGranted(now, x, lease) => InvLeaseGranted(c, a, now, x, lease);
    case InCancel(now, x, lease, grace) => InvCancelJob(c, a, now, x, lease, grace);
    case InRevoke(now, x, lease) => InvRevoke(c, a, now, x, lease);
    case InResume(now, ds) => InvApplyResume(c, a, now, ds);
    case InEvent(_, id, ev) => InvOnEvent(c, a, id, ev);
    case InDone(now, id, o) => InvOnDone(c, a, now, id, o);
    case InRestart(_) => InvRestart(c, a);
  }

  /** The invariant holds in every reachable state. */
  lemma {:induction false} InvAlways(c: Config, a: Agent, tr: seq<Input>)
    requires Inv(c, a) && Possible(c, a, tr)
    ensures Inv(c, After(c, a, tr))
    decreases |tr|
  {
    hide React, Inv;
    if tr != [] {
      InvReact(c, a, tr[0]);
      InvAlways(c, React(c, a, tr[0]).agent, tr[1..]);
    }
  }

  // ---- what the invariant gives in every reachable state ----

  /** Hello partition: every durable attempt is reported exactly once. */
  lemma HelloPartition(c: Config, a: Agent)
    requires Inv(c, a)
    ensures ActiveJobs(a) !! PendingResults(a)
    ensures ActiveJobs(a) + PendingResults(a) == a.attempts.Keys
    ensures forall x :: x in a.registry ==> x in ActiveJobs(a)
  {
    forall x: AttemptId
      ensures x in a.attempts <==> x in ActiveJobs(a) || x in PendingResults(a)
      ensures !(x in ActiveJobs(a) && x in PendingResults(a))
      ensures x in a.registry ==> x in ActiveJobs(a)
    {
      assert LocalOk(c, a, x);
    }
  }

  /** Window and conservation, for one durable attempt: the stored rows carry the
      contiguous sequence numbers from the first unacknowledged one to `last_seq`, the
      bytes emitted are the bytes acknowledged plus the bytes still stored, and a
      result reports exactly the totals. */
  lemma WindowAndConservation(c: Config, a: Agent, x: AttemptId)
    requires Inv(c, a) && x in a.attempts
    ensures var rows, log := RowsOf(a.events, x), Log(a, x);
            && 0 <= AckedCount(a, x) <= a.attempts[x].lastSeq == |log|
            && Contiguous(rows, AckedCount(a, x) + 1)
            && AckedCount(a, x) + |rows| == a.attempts[x].lastSeq
            && Bytes(log) == Bytes(log[..AckedCount(a, x)]) + Bytes(rows)
            && (x in a.registry ==> a.registry[x] in a.runs)
            && (x in a.registry ==>
                  a.runs[a.registry[x]].seqNo == a.attempts[x].lastSeq && a.runs[a.registry[x]].totalBytes == Bytes(log))
            && (x in a.results ==>
                  a.results[x].payload.body.eventCount == |log| && a.results[x].payload.body.bytes == Bytes(log))
  {
    assert LocalOk(c, a, x);
    var rows, log := RowsOf(a.events, x), Log(a, x);
    var n := |log| - |rows|;
    assert log == log[..n] + rows;
    BytesConcat(log[..n], rows);
    forall i | 0 <= i < |rows| ensures rows[i].seqNo == n + 1 + i {
      assert LogRowOk(log[n + i], x, a.attempts[x].job, n + i + 1);
    }
  }

  /** The connection's unacknowledged bytes are those of its attempts, summed. */
  lemma ConnectionIsSum(c: Config, a: Agent)
    requires Inv(c, a)
    ensures Bytes(a.events) == BytesOver(a.events, a.attempts.Keys)
  {
    forall r | r in a.events ensures r.attempt in a.attempts.Keys {
      assert LocalOk(c, a, r.attempt);
      RowsOfHas(a.events, r);
    }
    ConnectionTotal(a.events, a.attempts.Keys);
  }

  lemma {:induction false} RowsOfHas(rows: seq<EventRow>, r: EventRow)
    requires r in rows
    ensures r in RowsOf(rows, r.attempt)
  {
    var init, last := rows[..|rows| - 1], rows[|rows| - 1];
    assert rows == init + [last];
    if r in init { RowsOfHas(init, r); }
  }
}
