/** What every handler and every engine callback keeps.

    Each handler works on one attempt, so the invariant is a conjunction of facts
    about single attempts (`LocalOk`) and runs (`RunOk`), and one frame lemma
    (`Rebuild`) carries everything a handler did not touch. */
module JobInvariant {
  import opened Options
  import opened JobTypes
  import opened EventTable
  import opened JobProtocol

  /** Everything the run behind the attempt row of `x` has emitted. */
  ghost function Log(a: Agent, x: AttemptId): seq<EventRow>
    requires x in a.attempts
  {
    Emitted(a, a.attempts[x].run)
  }

  ghost predicate LogRowOk(row: EventRow, x: AttemptId, job: JobId, n: nat) {
    && row.attempt == x && row.seqNo == n && row.eventId == EventId(x, n)
    && row.payload.StreamEvent?
    && row.payload.job == job && row.payload.attempt == x
    && row.payload.seqNo == n && row.payload.eventId == EventId(x, n)
  }

  ghost predicate LogOk(log: seq<EventRow>, x: AttemptId, job: JobId) {
    forall i :: 0 <= i < |log| ==> LogRowOk(log[i], x, job, i + 1)
  }

  /** The stored rows are exactly the unacknowledged end of what was emitted. */
  ghost predicate Window(log: seq<EventRow>, rows: seq<EventRow>) {
    |rows| <= |log| && rows == log[|log| - |rows|..]
  }

  ghost predicate AttemptOk(a: Agent, x: AttemptId)
    requires x in a.attempts
  {
    var row := a.attempts[x];
    && row.run < a.nextId
    && row.run in a.emitted
    && (row.run in a.runs ==> a.runs[row.run].attempt == x)
    && |Log(a, x)| == row.lastSeq
    && LogOk(Log(a, x), x, row.job)
    && Window(Log(a, x), RowsOf(a.events, x))
    && (IsTerminal(row.status) <==> x in a.results)
  }

  /** A registered run is live, unfenced and agrees with its durable row. */
  ghost predicate RegisteredOk(a: Agent, x: AttemptId)
    requires x in a.registry
  {
    && a.registry[x] in a.runs
    && x in a.attempts
    && x in a.started
    && x !in a.results
    && var run, row := a.runs[a.registry[x]], a.attempts[x];
    && run.attempt == x && run.live && !run.fenced
    && row.run == a.registry[x] && row.job == run.job
    && row.lease == run.lease
    && row.lastSeq == run.seqNo
    && run.totalBytes == Bytes(Log(a, x))
  }

  /** The stored digest is that of the stored payload, which reports the totals. */
  ghost predicate ResultOk(c: Config, a: Agent, x: AttemptId)
    requires x in a.results
  {
    && x in a.attempts
    && var r, body, row := a.results[x], a.results[x].payload.body, a.attempts[x];
    && r.digest == c.digest(body) && r.lease == body.lease
    && body.attempt == x && body.job == r.job == row.job
    && body.finalStatus == r.finalStatus && row.status == TerminalStatusOf(r.finalStatus)
    && r.lastSeq == row.lastSeq
    && body.eventCount == |Log(a, x)| && body.bytes == Bytes(Log(a, x))
  }

  /** Everything the invariant says about one attempt. */
  ghost predicate LocalOk(c: Config, a: Agent, x: AttemptId) {
    && (x in a.attempts ==> AttemptOk(a, x))
    && (x in a.registry ==> RegisteredOk(a, x))
    && (x in a.results ==> ResultOk(c, a, x))
    && (x !in a.attempts ==> RowsOf(a.events, x) == [])
  }

  /** A run that can still emit is the registered run of its attempt. */
  ghost predicate RunOk(a: Agent, id: RunId)
    requires id in a.runs
  {
    var run := a.runs[id];
    && id < a.nextId
    && (run.live && !run.fenced ==> run.attempt in a.registry && a.registry[run.attempt] == id)
  }

  ghost predicate Inv(c: Config, a: Agent) {
    && (forall x: AttemptId :: LocalOk(c, a, x))
    && (forall id :: id in a.runs ==> RunOk(a, id))
    && (forall id :: id in a.emitted ==> id < a.nextId)
    && |a.registry| <= c.maxConcurrent
  }

  // ---- frame ----

  ghost predicate AgreeAt(a: Agent, b: Agent, y: AttemptId) {
    && (y in a.attempts <==> y in b.attempts) && (y in a.attempts ==> a.attempts[y] == b.attempts[y])
    && (y in a.results <==> y in b.results) && (y in a.results ==> a.results[y] == b.results[y])
    && (y in a.registry <==> y in b.registry) && (y in a.registry ==> a.registry[y] == b.registry[y])
    && (y in a.started <==> y in b.started) && (y in a.started ==> a.started[y] == b.started[y])
    && RowsOf(a.events, y) == RowsOf(b.events, y)
  }

  ghost predicate RunAgrees(a: Agent, b: Agent, id: RunId, x: AttemptId) {
    && (id in a.runs && a.runs[id].attempt != x ==> id in b.runs && b.runs[id] == a.runs[id])
    && (id in b.runs && b.runs[id].attempt != x ==> id in a.runs && b.runs[id] == a.runs[id])
    && (id in b.runs && id !in a.runs ==> a.nextId <= id)
    && (id in a.runs && id in b.runs ==> a.runs[id].attempt == b.runs[id].attempt)
  }

  ghost predicate LogAgrees(a: Agent, b: Agent, id: RunId, x: AttemptId) {
    id in a.emitted ==>
      && id in b.emitted
      && (b.emitted[id] == a.emitted[id] || (id in a.runs && a.runs[id].attempt == x))
  }

  /** `b` differs from `a` at most in what belongs to attempt `x`. */
  ghost predicate Elsewhere(a: Agent, b: Agent, x: AttemptId) {
    && (forall y: AttemptId :: y != x ==> AgreeAt(a, b, y))
    && (forall id: RunId :: RunAgrees(a, b, id, x))
    && (forall id: RunId :: LogAgrees(a, b, id, x))
    && a.nextId <= b.nextId
  }

  lemma LocalFrame(c: Config, a: Agent, b: Agent, x: AttemptId, y: AttemptId)
    requires LocalOk(c, a, y) && Elsewhere(a, b, x) && y != x
    ensures LocalOk(c, b, y)
    ensures y in a.attempts ==> y in b.attempts && Log(b, y) == Log(a, y)
  {
    assert AgreeAt(a, b, y);
    if y in a.attempts {
      var id := a.attempts[y].run;
      assert LogAgrees(a, b, id, x) && RunAgrees(a, b, id, x);
      assert Log(b, y) == Log(a, y);
    }
    if y in a.registry {
      assert RunAgrees(a, b, a.registry[y], x);
    }
  }

  lemma RunFrame(a: Agent, b: Agent, x: AttemptId, id: RunId)
    requires Elsewhere(a, b, x)
    requires id in b.runs && b.runs[id].attempt != x
    requires id in a.runs ==> RunOk(a, id)
    ensures RunOk(b, id)
  {
    assert RunAgrees(a, b, id, x);
    assert AgreeAt(a, b, b.runs[id].attempt);
  }

  lemma Rebuild(c: Config, a: Agent, b: Agent, x: AttemptId)
    requires Inv(c, a) && Elsewhere(a, b, x)
    requires LocalOk(c, b, x)
    requires forall id :: id in b.runs && b.runs[id].attempt == x ==> RunOk(b, id)
    requires forall id :: id in b.emitted ==> id < b.nextId
    requires |b.registry| <= c.maxConcurrent
    ensures Inv(c, b)
  {
    forall y: AttemptId ensures LocalOk(c, b, y) {
      if y != x { LocalFrame(c, a, b, x, y); }
    }
    forall id | id in b.runs ensures RunOk(b, id) {
      if b.runs[id].attempt != x { RunFrame(a, b, x, id); }
    }
  }

  lemma RegistrySize(a: map<AttemptId, RunId>, b: map<AttemptId, RunId>)
    requires b.Keys <= a.Keys
    ensures |b| <= |a|
  {
    Subset(b.Keys, a.Keys);
    assert |a.Keys| == |a| && |b.Keys| == |b|;
  }

  lemma {:induction false} Subset(s: set<AttemptId>, t: set<AttemptId>)
    requires s <= t
    ensures |s| <= |t|
  {
    assert t == s + (t - s);
  }

  lemma InvEmpty(c: Config)
    ensures Inv(c, EmptyAgent)
  {
  }

  lemma InvRestart(c: Config, a: Agent)
    requires Inv(c, a)
    ensures Inv(c, Restart(a))
  {
    forall x: AttemptId ensures LocalOk(c, Restart(a), x) {
      assert LocalOk(c, a, x);
    }
  }

  // ---- job.assign ----

  lemma InvBegin(c: Config, a: Agent, now: int, m: AssignMsg)
    requires Inv(c, a) && Existing(a, m.attempt).None? && |a.registry| < c.maxConcurrent
    ensures Inv(c, Begin(a, now, m).agent)
    ensures Elsewhere(a, Begin(a, now, m).agent, m.attempt)
  {
    var b, x := Begin(a, now, m).agent, m.attempt;
    BeginElsewhere(c, a, now, m);
    BeginLocal(c, a, now, m);
    assert x !in a.registry by { assert LocalOk(c, a, x); }
    RegistryGrows(a.registry, x, a.nextId);
    Rebuild(c, a, b, x);
  }

  lemma RegistryGrows(r: map<AttemptId, RunId>, x: AttemptId, id: RunId)
    requires x !in r
    ensures |r[x := id]| == |r| + 1
  {
    assert r[x := id].Keys == r.Keys + {x};
    assert |r[x := id].Keys| == |r[x := id]|;
  }

  lemma BeginLocal(c: Config, a: Agent, now: int, m: AssignMsg)
    requires Inv(c, a) && Existing(a, m.attempt).None?
    ensures LocalOk(c, Begin(a, now, m).agent, m.attempt)
  {
    assert LocalOk(c, a, m.attempt);
  }

  lemma BeginElsewhere(c: Config, a: Agent, now: int, m: AssignMsg)
    requires Inv(c, a)
    ensures Elsewhere(a, Begin(a, now, m).agent, m.attempt)
  {
    var b, x := Begin(a, now, m).agent, m.attempt;
    forall id: RunId ensures LogAgrees(a, b, id, x) { }
    forall id: RunId ensures RunAgrees(a, b, id, x) { if id in a.runs { assert RunOk(a, id); } }
    forall y: AttemptId | y != x ensures AgreeAt(a, b, y) { }
  }

  lemma InvAssign(c: Config, a: Agent, now: int, m: AssignMsg)
    requires Inv(c, a)
    ensures Inv(c, Assign(c, a, now, m).agent)
    ensures Elsewhere(a, Assign(c, a, now, m).agent, m.attempt)
  {
    if Existing(a, m.attempt).None? && Admit(c, a, m).None? {
      InvBegin(c, a, now, m);
    }
  }

  // ---- engine callbacks ----

  lemma AppendRows(rows: seq<EventRow>, row: EventRow, x: AttemptId)
    ensures RowsOf(rows + [row], x) == if x == row.attempt then RowsOf(rows, x) + [row] else RowsOf(rows, x)
    ensures Bytes(rows + [row]) == Bytes(rows) + row.bytes
  {
    assert (rows + [row])[..|rows|] == rows;
  }

  /** What an unfenced event does, apart from the question whether it pauses the run. */
  ghost predicate EventStep(a: Agent, id: RunId, row: EventRow, b: Agent)
    requires id in a.runs
  {
    var run := a.runs[id];
    && b.events == a.events + [row]
    && b.attempts == Append(a, row).attempts
    && b.results == a.results && b.registry == a.registry && b.started == a.started && b.nextId == a.nextId
    && b.emitted == a.emitted[id := Emitted(a, id) + [row]]
    && id in b.runs
    && b.runs == a.runs[id := run.(
         seqNo := row.seqNo, totalBytes := run.totalBytes + row.bytes, paused := b.runs[id].paused)]
  }

  lemma EventSteps(c: Config, a: Agent, id: RunId, ev: EngineEvent)
    requires id in a.runs && !a.runs[id].fenced
    ensures EventStep(a, id, NewRow(c, a.runs[id], ev), OnEvent(c, a, id, ev).agent)
  {
    hide Emitted, RowsOf;
    var run, row := a.runs[id], NewRow(c, a.runs[id], ev);
    var b := OnEvent(c, a, id, ev).agent;
    var run1 := run.(seqNo := row.seqNo, totalBytes := run.totalBytes + row.bytes);
    assert b.runs == a.runs[id := run1.(paused := true)] || b.runs == a.runs[id := run1.(paused := run.paused)];
  }

  lemma InvOnEvent(c: Config, a: Agent, id: RunId, ev: EngineEvent)
    requires Inv(c, a) && id in a.runs && (a.runs[id].live || a.runs[id].fenced)
    ensures Inv(c, OnEvent(c, a, id, ev).agent)
    ensures Elsewhere(a, OnEvent(c, a, id, ev).agent, a.runs[id].attempt)
  {
    if !a.runs[id].fenced {
      EventSteps(c, a, id, ev);
      InvEventStep(c, a, id, NewRow(c, a.runs[id], ev), OnEvent(c, a, id, ev).agent);
    }
  }

  lemma InvEventStep(c: Config, a: Agent, id: RunId, row: EventRow, b: Agent)
    requires Inv(c, a) && id in a.runs && a.runs[id].live && !a.runs[id].fenced
    requires LogRowOk(row, a.runs[id].attempt, a.runs[id].job, a.runs[id].seqNo + 1)
    requires EventStep(a, id, row, b)
    ensures Inv(c, b) && Elsewhere(a, b, a.runs[id].attempt)
  {
    EventElsewhere(c, a, id, row, b);
    EventLocal(c, a, id, row, b);
    EventRuns(c, a, id, row, b);
    assert LogRowOk(row, a.runs[id].attempt, a.runs[id].job, a.runs[id].seqNo + 1);
    hide *;
    Rebuild(c, a, b, row.attempt);
  }

  lemma EventRuns(c: Config, a: Agent, id: RunId, row: EventRow, b: Agent)
    requires Inv(c, a) && id in a.runs && a.runs[id].live && !a.runs[id].fenced && EventStep(a, id, row, b)
    ensures forall i :: i in b.runs && b.runs[i].attempt == a.runs[id].attempt ==> RunOk(b, i)
    ensures forall i :: i in b.emitted ==> i < b.nextId
    ensures |b.registry| <= c.maxConcurrent
  {
    assert b.registry == a.registry && b.nextId == a.nextId;
    assert id in a.emitted by { EventOwner(c, a, id); }
    hide LocalOk, RowsOf, Bytes, Append;
    forall i | i in b.runs && b.runs[i].attempt == a.runs[id].attempt ensures RunOk(b, i) { assert RunOk(a, i); }
  }

  /** A run that can still emit is the one behind the row of its attempt. */
  lemma EventOwner(c: Config, a: Agent, id: RunId)
    requires Inv(c, a) && id in a.runs && a.runs[id].live && !a.runs[id].fenced
    ensures a.runs[id].attempt in a.attempts && a.attempts[a.runs[id].attempt].run == id && id in a.emitted
  {
    assert RunOk(a, id) && LocalOk(c, a, a.runs[id].attempt);
    hide RowsOf, Bytes, Window, LogOk;
  }

  lemma EventElsewhere(c: Config, a: Agent, id: RunId, row: EventRow, b: Agent)
    requires id in a.runs && row.attempt == a.runs[id].attempt && EventStep(a, id, row, b)
    ensures Elsewhere(a, b, row.attempt)
  {
    forall y: AttemptId | y != row.attempt ensures AgreeAt(a, b, y) { AppendRows(a.events, row, y); }
    assert b.runs.Keys == a.runs.Keys;
    forall i: RunId ensures RunAgrees(a, b, i, row.attempt) { }
    forall i: RunId ensures LogAgrees(a, b, i, row.attempt) { }
  }

  lemma EventLocal(c: Config, a: Agent, id: RunId, row: EventRow, b: Agent)
    requires Inv(c, a) && id in a.runs && a.runs[id].live && !a.runs[id].fenced
    requires LogRowOk(row, a.runs[id].attempt, a.runs[id].job, a.runs[id].seqNo + 1)
    requires EventStep(a, id, row, b)
    ensures LocalOk(c, b, row.attempt)
    ensures Log(b, row.attempt) == Log(a, row.attempt) + [row]
    ensures RowsOf(b.events, row.attempt) == RowsOf(a.events, row.attempt) + [row]
  {
    var x := row.attempt;
    assert RunOk(a, id) && LocalOk(c, a, x);
    AppendRows(a.events, row, x);
    var log, rows := Log(a, x), RowsOf(a.events, x);
    AppendRows(log, row, x);
    WindowGrows(log, rows, row, x, a.attempts[x].job);
    assert Log(b, x) == log + [row];
  }

  lemma WindowGrows(log: seq<EventRow>, rows: seq<EventRow>, row: EventRow, x: AttemptId, job: JobId)
    requires Window(log, rows) && LogOk(log, x, job) && LogRowOk(row, x, job, |log| + 1)
    ensures Window(log + [row], rows + [row]) && LogOk(log + [row], x, job)
  {
  }

  lemma InvOnDone(c: Config, a: Agent, now: int, id: RunId, o: Outcome)
    requires Inv(c, a) && id in a.runs && (a.runs[id].live || a.runs[id].fenced)
    ensures Inv(c, OnDone(c, a, now, id, o).agent)
    ensures Elsewhere(a, OnDone(c, a, now, id, o).agent, a.runs[id].attempt)
  {
    var b, x := OnDone(c, a, now, id, o).agent, a.runs[id].attempt;
    assert RunOk(a, id) && LocalOk(c, a, x);
    OnDoneElsewhere(c, a, now, id, o);
    RegistrySize(a.registry, b.registry);
    OnDoneLocal(c, a, now, id, o);
    forall i | i in b.runs && b.runs[i].attempt == x ensures RunOk(b, i) { assert RunOk(a, i); }
    Rebuild(c, a, b, x);
  }

  lemma OnDoneElsewhere(c: Config, a: Agent, now: int, id: RunId, o: Outcome)
    requires Inv(c, a) && id in a.runs
    ensures Elsewhere(a, OnDone(c, a, now, id, o).agent, a.runs[id].attempt)
  {
    hide OnDone, Elsewhere, AboutOne;
    DoneAboutOne(c, a, now, id, o);
    AboutOneElsewhere(a, OnDone(c, a, now, id, o).agent, a.runs[id].attempt);
  }

  /** Only entries of `x` and runs of `x` differ; none is added to the runs. */
  ghost predicate AboutOne(a: Agent, b: Agent, x: AttemptId) {
    && b.attempts - {x} == a.attempts - {x} && b.results - {x} == a.results - {x}
    && b.registry - {x} == a.registry - {x} && b.started - {x} == a.started - {x}
    && b.events == a.events && b.emitted == a.emitted && a.nextId <= b.nextId
    && b.runs.Keys == a.runs.Keys
    && forall id :: id in a.runs && b.runs[id] != a.runs[id] ==> a.runs[id].attempt == b.runs[id].attempt == x
  }

  lemma DoneAboutOne(c: Config, a: Agent, now: int, id: RunId, o: Outcome)
    requires id in a.runs
    ensures AboutOne(a, OnDone(c, a, now, id, o).agent, a.runs[id].attempt)
  {
    hide OnDone;
    DoneRuns(c, a, now, id, o);
    DoneTables(c, a, now, id, o);
  }

  lemma DoneTables(c: Config, a: Agent, now: int, id: RunId, o: Outcome)
    requires id in a.runs
    ensures var b, x := OnDone(c, a, now, id, o).agent, a.runs[id].attempt;
            && b.attempts - {x} == a.attempts - {x} && b.results - {x} == a.results - {x}
            && (b.registry == a.registry || b.registry == a.registry - {x})
            && (b.started == a.started || b.started == a.started - {x})
            && b.events == a.events && b.emitted == a.emitted && a.nextId <= b.nextId
  {
    hide ResultOf, TerminalStatusOf, FinalStatusOf;
  }

  /** At its end a run changes in its liveness and status only. */
  lemma DoneRuns(c: Config, a: Agent, now: int, id: RunId, o: Outcome)
    requires id in a.runs
    ensures var b := OnDone(c, a, now, id, o).agent;
            id in b.runs && b.runs == a.runs[id := a.runs[id].(live := false, status := b.runs[id].status)]
  {
    hide ResultOf, TerminalStatusOf, FinalStatusOf;
  }

  lemma AboutOneElsewhere(a: Agent, b: Agent, x: AttemptId)
    requires AboutOne(a, b, x)
    ensures Elsewhere(a, b, x)
  {
    hide RowsOf;
    forall y: AttemptId | y != x ensures AgreeAt(a, b, y) {
      assert y in a.attempts - {x} <==> y in a.attempts;
      assert y in a.results - {x} <==> y in a.results;
      assert y in a.registry - {x} <==> y in a.registry;
      assert y in a.started - {x} <==> y in a.started;
    }
    forall id: RunId ensures RunAgrees(a, b, id, x) { }
  }

  lemma OnDoneLocal(c: Config, a: Agent, now: int, id: RunId, o: Outcome)
    requires Inv(c, a) && id in a.runs && (a.runs[id].live || a.runs[id].fenced)
    ensures LocalOk(c, OnDone(c, a, now, id, o).agent, a.runs[id].attempt)
  {
    var b, x := OnDone(c, a, now, id, o).agent, a.runs[id].attempt;
    assert RunOk(a, id) && LocalOk(c, a, x);
    assert b.events == a.events && b.emitted == a.emitted;
    if x in a.attempts { assert Log(b, x) == Log(a, x); }
  }

  // ---- acknowledgements ----

  /** A cumulative ack moves the window's left edge to `k`, but never back and never
      past what was emitted. */
  lemma WindowAcked(log: seq<EventRow>, rows: seq<EventRow>, x: AttemptId, job: JobId, k: int)
    requires Window(log, rows) && LogOk(log, x, job)
    ensures Window(log, Acked(rows, x, k))
    ensures var edge := |log| - |rows|;
            |log| - |Acked(rows, x, k)| == if k <= edge then edge else if k >= |log| then |log| else k
  {
    var first := |log| - |rows| + 1;
    forall i | 0 <= i < |rows| ensures rows[i].seqNo == first + i && rows[i].attempt == x {
      assert LogRowOk(log[|log| - |rows| + i], x, job, first + i);
    }
    AckedContiguous(rows, x, first, k);
    hide Acked;
  }

  lemma AckedRows(c: Config, a: Agent, x: AttemptId, k: int, y: AttemptId)
    requires LocalOk(c, a, x)
    ensures y != x ==> RowsOf(Acked(a.events, x, k), y) == RowsOf(a.events, y)
    ensures x !in a.attempts ==> RowsOf(Acked(a.events, x, k), x) == []
    ensures x in a.attempts ==> Window(Log(a, x), RowsOf(Acked(a.events, x, k), x))
    ensures x in a.attempts ==>
              var left := |Log(a, x)| - |RowsOf(Acked(a.events, x, k), x)|;
              left == if k <= AckedCount(a, x) then AckedCount(a, x) else if k >= |Log(a, x)| then |Log(a, x)| else k
  {
    assert Acked([], x, k) == [];
    hide RowsOf, Acked, LogOk, Window;
    if y != x { RowsOfAckedOther(a.events, x, k, y); }
    RowsOfAcked(a.events, x, k);
    if x in a.attempts {
      WindowAcked(Log(a, x), RowsOf(a.events, x), x, a.attempts[x].job, k);
    }
  }

  /** How many events of `x` the relay has acknowledged away. */
  ghost function AckedCount(a: Agent, x: AttemptId): int
    requires x in a.attempts
  {
    |Log(a, x)| - |RowsOf(a.events, x)|
  }

  /** Same run, same history: only lease, status, flags and acknowledged rows may differ. */
  ghost predicate Touches(a: Agent, b: Agent, x: AttemptId) {
    && b.results == a.results && b.registry == a.registry && b.started == a.started
    && b.nextId == a.nextId && b.emitted == a.emitted
    && (forall y: AttemptId :: y != x ==> RowsOf(b.events, y) == RowsOf(a.events, y))
    && b.attempts.Keys == a.attempts.Keys
    && (forall y :: y in a.attempts && y != x ==> b.attempts[y] == a.attempts[y])
    && (x in a.attempts ==>
          && b.attempts[x] == a.attempts[x].(lease := b.attempts[x].lease, status := b.attempts[x].status)
          && (b.attempts[x].status == a.attempts[x].status || (x in a.registry && !IsTerminal(b.attempts[x].status)))
          && Window(Log(a, x), RowsOf(b.events, x)))
    && (x !in a.attempts ==> RowsOf(b.events, x) == [])
    && b.runs.Keys == a.runs.Keys
    && (forall id :: id in a.runs && !(x in a.registry && id == a.registry[x]) ==> b.runs[id] == a.runs[id])
    && (Lookup(a, x).Some? ==>
          var r, s := Lookup(a, x).value, Lookup(b, x).value;
          && s == r.(lease := s.lease, status := s.status, paused := s.paused,
                     prevLease := s.prevLease, overlapUntil := s.overlapUntil)
          && (x in b.attempts ==> s.lease == b.attempts[x].lease))
  }

  lemma LocalOf(c: Config, a: Agent, x: AttemptId)
    requires Inv(c, a)
    ensures LocalOk(c, a, x)
  {
  }

  /** The part of the invariant that the lease and status handlers rely on. */
  lemma Basics(c: Config, a: Agent, x: AttemptId)
    requires LocalOk(c, a, x)
    ensures x in a.registry ==>
              && a.registry[x] in a.runs && x in a.attempts && x !in a.results
              && a.runs[a.registry[x]].attempt == x && a.runs[a.registry[x]].live && !a.runs[a.registry[x]].fenced
              && a.runs[a.registry[x]].lease == a.attempts[x].lease
              && a.attempts[x].run == a.registry[x]
              && !IsTerminal(a.attempts[x].status)
    ensures x in a.attempts ==> Window(Log(a, x), RowsOf(a.events, x))
    ensures x !in a.attempts ==> RowsOf(a.events, x) == []
  {
  }

  lemma TouchElsewhere(c: Config, a: Agent, b: Agent, x: AttemptId)
    requires LocalOk(c, a, x) && Touches(a, b, x)
    ensures Elsewhere(a, b, x)
  {
    forall y: AttemptId | y != x ensures AgreeAt(a, b, y) { }
    forall id: RunId ensures RunAgrees(a, b, id, x) { }
  }

  lemma InvTouch(c: Config, a: Agent, b: Agent, x: AttemptId)
    requires Inv(c, a) && Touches(a, b, x)
    ensures Inv(c, b) && Elsewhere(a, b, x)
  {
    assert LocalOk(c, a, x);
    TouchElsewhere(c, a, b, x);
    assert LocalOk(c, b, x);
    forall id | id in b.runs && b.runs[id].attempt == x ensures RunOk(b, id) { assert RunOk(a, id); }
    Rebuild(c, a, b, x) by { hide LocalOk, Touches, Elsewhere, RunOk; }
  }

  /** An ack cuts the stored rows and may clear the pause flag of the live run. */
  lemma AckIs(c: Config, a: Agent, now: int, x: AttemptId, lease: LeaseId, k: nat)
    ensures var b := StreamAck(c, a, now, x, lease, k).agent;
            && b == a.(events := b.events, runs := b.runs)
            && (b.events == a.events || b.events == Acked(a.events, x, k))
            && (b.runs == a.runs
                || (Lookup(a, x).Some? && b.runs == a.runs[a.registry[x] := Lookup(a, x).value.(paused := false)]))
  {
    hide LeaseOk, Acked, OverCap;
  }

  lemma InvStreamAck(c: Config, a: Agent, now: int, x: AttemptId, lease: LeaseId, k: nat)
    requires Inv(c, a)
    ensures Inv(c, StreamAck(c, a, now, x, lease, k).agent)
    ensures Elsewhere(a, StreamAck(c, a, now, x, lease, k).agent, x)
    ensures Touches(a, StreamAck(c, a, now, x, lease, k).agent, x)
  {
    hide LocalOk, Inv, Window, RowsOf, LeaseOk, Elsewhere, Log, Acked, StreamAck;
    var b := StreamAck(c, a, now, x, lease, k).agent;
    LocalOf(c, a, x);
    Basics(c, a, x);
    AckIs(c, a, now, x, lease, k);
    forall y: AttemptId | y != x ensures RowsOf(b.events, y) == RowsOf(a.events, y) { AckedRows(c, a, x, k, y); }
    AckedRows(c, a, x, k, x);
    var run := Lookup(a, x);
    if run.Some? && b.runs != a.runs { RunReplaced(a, b, x, run.value.(paused := false)); }
    assert Touches(a, b, x);
    hide Touches;
    InvTouch(c, a, b, x);
  }

  lemma DeleteElsewhere(a: Agent, x: AttemptId)
    ensures Elsewhere(a, DeleteAttempt(a, x), x)
    ensures RowsOf(DeleteAttempt(a, x).events, x) == []
  {
    forall y: AttemptId | y != x ensures AgreeAt(a, DeleteAttempt(a, x), y) { RowsOfDropped(a.events, x, y); }
    RowsOfDropped(a.events, x, x);
  }

  /** Forgetting an attempt whose run can no longer emit. */
  lemma InvForget(c: Config, a: Agent, b: Agent, x: AttemptId)
    requires Inv(c, a) && Elsewhere(a, b, x)
    requires x !in b.attempts && x !in b.registry && x !in b.results && RowsOf(b.events, x) == []
    requires forall id :: id in b.runs && b.runs[id].attempt == x ==> id < b.nextId && (b.runs[id].live ==> b.runs[id].fenced)
    requires b.registry.Keys <= a.registry.Keys && b.nextId == a.nextId && b.emitted == a.emitted
    ensures Inv(c, b)
  {
    RegistrySize(a.registry, b.registry);
    Rebuild(c, a, b, x);
  }

  lemma NotLive(c: Config, a: Agent, x: AttemptId)
    requires Inv(c, a) && x !in a.registry
    ensures forall id :: id in a.runs && a.runs[id].attempt == x ==> id < a.nextId && (a.runs[id].live ==> a.runs[id].fenced)
  {
    forall id | id in a.runs && a.runs[id].attempt == x ensures id < a.nextId && (a.runs[id].live ==> a.runs[id].fenced) {
      assert RunOk(a, id);
    }
  }

  lemma InvResultAck(c: Config, a: Agent, now: int, x: AttemptId, lease: LeaseId, digest: Digest)
    requires Inv(c, a)
    ensures Inv(c, ResultAck(a, now, x, lease, digest).agent)
    ensures Elsewhere(a, ResultAck(a, now, x, lease, digest).agent, x)
  {
    var b := ResultAck(a, now, x, lease, digest).agent;
    assert LocalOk(c, a, x);
    if LeaseOk(a, now, x, lease) && x in a.results && a.results[x].digest == digest {
      CollectedElsewhere(a, b, x);
      NotLive(c, a, x);
      assert x !in b.results && x !in b.attempts && x !in b.registry;
      hide *;
      InvForget(c, a, b, x);
    }
  }

  lemma CollectedElsewhere(a: Agent, b: Agent, x: AttemptId)
    requires b == DeleteAttempt(a, x).(results := a.results - {x}, registry := a.registry - {x}, started := a.started - {x})
    ensures Elsewhere(a, b, x) && RowsOf(b.events, x) == []
  {
    DeleteElsewhere(a, x);
    hide RowsOf, Dropped;
    forall y: AttemptId | y != x ensures AgreeAt(a, b, y) { assert AgreeAt(a, DeleteAttempt(a, x), y); }
    forall id: RunId ensures RunAgrees(a, b, id, x) && LogAgrees(a, b, id, x) { }
  }

  // ---- leases, cancellation, fencing ----

  /** A directive's lease is written to the row, and to the live run as a rotation is. */
  lemma AdoptedIs(a: Agent, now: int, x: AttemptId, lease: Option<LeaseId>)
    ensures lease.None? ==> Adopted(a, now, x, lease) == a
    ensures lease.Some? ==>
            var b, l := Adopted(a, now, x, lease), lease.value;
            && b == a.(attempts := b.attempts, runs := b.runs)
            && b.attempts == (if x in a.attempts then a.attempts[x := a.attempts[x].(lease := l)] else a.attempts)
            && b.runs == if Lookup(a, x).Some? && Lookup(a, x).value.lease != l
                         then a.runs[a.registry[x] := Rotate(Lookup(a, x).value, l, now)] else a.runs
  {
  }

  /** The live run of `x` is replaced. */
  lemma RunReplaced(a: Agent, b: Agent, x: AttemptId, s: Run)
    requires Lookup(a, x).Some? && b.registry == a.registry && b.runs == a.runs[a.registry[x] := s]
    ensures Lookup(b, x) == Some(s) && b.runs.Keys == a.runs.Keys
    ensures forall id :: id in a.runs && id != a.registry[x] ==> b.runs[id] == a.runs[id]
  {
  }

  lemma InvAdopted(c: Config, a: Agent, now: int, x: AttemptId, lease: Option<LeaseId>)
    requires Inv(c, a)
    ensures Inv(c, Adopted(a, now, x, lease))
    ensures Elsewhere(a, Adopted(a, now, x, lease), x)
    ensures Touches(a, Adopted(a, now, x, lease), x)
  {
    hide LocalOk, Inv, Window, RowsOf, Elsewhere, Log, Adopted;
    var b := Adopted(a, now, x, lease);
    LocalOf(c, a, x);
    Basics(c, a, x);
    AdoptedIs(a, now, x, lease);
    if lease.Some? {
      var run := Lookup(a, x);
      if run.Some? && run.value.lease != lease.value { RunReplaced(a, b, x, Rotate(run.value, lease.value, now)); }
    }
    assert Touches(a, b, x);
    hide Touches;
    InvTouch(c, a, b, x);
  }

  lemma InvLeaseGranted(c: Config, a: Agent, now: int, x: AttemptId, lease: LeaseId)
    requires Inv(c, a)
    ensures Inv(c, LeaseGranted(a, now, x, lease).agent)
    ensures Elsewhere(a, LeaseGranted(a, now, x, lease).agent, x)
    ensures Touches(a, LeaseGranted(a, now, x, lease).agent, x)
  {
    hide LocalOk, Inv, Window, RowsOf, LeaseOk, Elsewhere, Log;
    var b := LeaseGranted(a, now, x, lease).agent;
    LocalOf(c, a, x);
    Basics(c, a, x);
    assert Touches(a, b, x);
    hide Touches;
    InvTouch(c, a, b, x);
  }

  lemma InvCancelJob(c: Config, a: Agent, now: int, x: AttemptId, lease: LeaseId, grace: nat)
    requires Inv(c, a)
    ensures Inv(c, CancelJob(a, now, x, lease, grace).agent)
    ensures Elsewhere(a, CancelJob(a, now, x, lease, grace).agent, x)
    ensures Touches(a, CancelJob(a, now, x, lease, grace).agent, x)
  {
    hide LocalOk, Inv, Window, RowsOf, LeaseOk, Elsewhere, Log;
    var b := CancelJob(a, now, x, lease, grace).agent;
    LocalOf(c, a, x);
    Basics(c, a, x);
    assert Touches(a, b, x);
    hide Touches;
    InvTouch(c, a, b, x);
  }

  /** Fencing a run and deleting its row, with or without its result. */
  lemma InvFenceDelete(c: Config, a: Agent, x: AttemptId, b: Agent)
    requires Inv(c, a)
    requires var f := DeleteAttempt(Fence(a, x).agent, x);
             b == f.(results := a.results - {x}) || (b == f && x in a.registry)
    ensures Inv(c, b) && Elsewhere(a, b, x)
  {
    hide Inv, LocalOk, RowsOf, Dropped, Fence, Forgets, Elsewhere;
    LocalOf(c, a, x);
    FenceForgets(c, a, x, b);
    ForgetsElsewhere(a, b, x);
    FencedRuns(c, a, x, b);
    hide *;
    InvForget(c, a, b, x);
  }

  lemma FenceFacts(a: Agent, x: AttemptId)
    ensures var b, known := Fence(a, x).agent, Lookup(a, x).Some?;
            && b.runs == (if known then a.runs[a.registry[x] := a.runs[a.registry[x]].(fenced := true)] else a.runs)
            && b.registry == (if known then a.registry - {x} else a.registry)
            && b.attempts == a.attempts && b.results == a.results && b.events == a.events
  {
  }

  /** The live run of `x`, if there is one, is fenced, and no table keeps anything of `x`. */
  ghost predicate Forgets(a: Agent, b: Agent, x: AttemptId) {
    && (x in a.registry ==>
          && a.registry[x] in a.runs && a.runs[a.registry[x]].attempt == x
          && b.runs == a.runs[a.registry[x] := a.runs[a.registry[x]].(fenced := true)])
    && (x !in a.registry ==> b.runs == a.runs)
    && b.registry == a.registry - {x} && b.attempts == a.attempts - {x} && b.results == a.results - {x}
    && b.events == Dropped(a.events, x) && b.started - {x} == a.started - {x}
    && b.nextId == a.nextId && b.emitted == a.emitted
  }

  lemma FenceForgets(c: Config, a: Agent, x: AttemptId, b: Agent)
    requires LocalOk(c, a, x)
    requires var f := DeleteAttempt(Fence(a, x).agent, x);
             b == f.(results := a.results - {x}) || (b == f && x in a.registry)
    ensures Forgets(a, b, x)
  {
    Basics(c, a, x);
    hide LocalOk, RowsOf, Dropped, Window;
  }

  /** After the fence no run of the attempt can emit. */
  lemma FencedRuns(c: Config, a: Agent, x: AttemptId, b: Agent)
    requires Inv(c, a) && Forgets(a, b, x)
    ensures forall id :: id in b.runs && b.runs[id].attempt == x ==> id < b.nextId && (b.runs[id].live ==> b.runs[id].fenced)
    ensures x !in b.attempts && x !in b.registry && x !in b.results
    ensures b.registry.Keys <= a.registry.Keys && b.nextId == a.nextId && b.emitted == a.emitted
  {
    hide LocalOk, Dropped;
    forall id | id in b.runs && b.runs[id].attempt == x
      ensures id < b.nextId && (b.runs[id].live ==> b.runs[id].fenced)
    {
      assert RunOk(a, id);
    }
  }

  lemma ForgetsElsewhere(a: Agent, b: Agent, x: AttemptId)
    requires Forgets(a, b, x)
    ensures Elsewhere(a, b, x) && RowsOf(b.events, x) == []
  {
    hide RowsOf, Dropped;
    RowsOfDropped(a.events, x, x);
    forall y: AttemptId | y != x ensures AgreeAt(a, b, y) {
      RowsOfDropped(a.events, x, y);
      assert y in b.started <==> y in b.started - {x};
    }
    assert b.runs.Keys == a.runs.Keys;
    forall id: RunId ensures RunAgrees(a, b, id, x) { }
  }

  lemma InvRevoke(c: Config, a: Agent, now: int, x: AttemptId, lease: LeaseId)
    requires Inv(c, a)
    ensures Inv(c, Revoke(a, now, x, lease).agent)
    ensures Elsewhere(a, Revoke(a, now, x, lease).agent, x)
  {
    if Lookup(a, x).Some? && LeaseOk(a, now, x, lease) {
      InvFenceDelete(c, a, x, Revoke(a, now, x, lease).agent);
    }
  }

  // ---- resume directives ----

  /** `ack_pending` does not fence a run, so the relay must name an ended one. */
  ghost predicate Ended(a: Agent, d: Directive) {
    d.AckPending? ==> d.attempt !in a.registry
  }

  lemma InvDirected(c: Config, a: Agent, now: int, d: Directive)
    requires Inv(c, a) && Ended(a, d)
    ensures Inv(c, Directed(c, a, now, d).agent)
    ensures Elsewhere(a, Directed(c, a, now, d).agent, d.attempt)
    ensures Directed(c, a, now, d).agent.registry.Keys <= a.registry.Keys
  {
    hide SortBySeq, Elsewhere, LocalOk, Dropped, Acked, Restamped;
    var b, x := Directed(c, a, now, d).agent, d.attempt;
    match d
    case ResumeFrom(_, k, lease) => InvAdopted(c, a, now, x, lease);
    case ResendResult(_, lease) => InvResend(c, a, now, x, lease);
    case AckPending(_) => InvAckPending(c, a, now, x);
    case Abandon(_) => InvFenceDelete(c, a, x, b);
  }

  lemma InvAckPending(c: Config, a: Agent, now: int, x: AttemptId)
    requires Inv(c, a) && x !in a.registry
    ensures Inv(c, Directed(c, a, now, AckPending(x)).agent)
    ensures Elsewhere(a, Directed(c, a, now, AckPending(x)).agent, x)
  {
    var b := Directed(c, a, now, AckPending(x)).agent;
    forall y: AttemptId | y != x ensures AgreeAt(a, b, y) { RowsOfDropped(a.events, x, y); }
    RowsOfDropped(a.events, x, x);
    NotLive(c, a, x);
    InvForget(c, a, b, x);
  }

  lemma InvResend(c: Config, a: Agent, now: int, x: AttemptId, lease: Option<LeaseId>)
    requires Inv(c, a)
    ensures Inv(c, Directed(c, a, now, ResendResult(x, lease)).agent)
    ensures Elsewhere(a, Directed(c, a, now, ResendResult(x, lease)).agent, x)
  {
    hide TerminalStatusOf, InsertBySeq, AdoptLease, Dropped, Payloads, Acked, LogRowOk, Fence, RowsOf, Restamp;
    var a1, b := Adopted(a, now, x, lease), Directed(c, a, now, ResendResult(x, lease)).agent;
    InvAdopted(c, a, now, x, lease);
    assert LocalOk(c, a1, x);
    if x in a1.results {
      forall y: AttemptId | y != x ensures AgreeAt(a1, b, y) && AgreeAt(a, b, y) { assert AgreeAt(a, a1, y); }
      forall id: RunId ensures RunAgrees(a, b, id, x) && LogAgrees(a, b, id, x) { assert RunAgrees(a, a1, id, x); }
      forall id | id in b.runs && b.runs[id].attempt == x ensures RunOk(b, id) { assert RunOk(a1, id); }
      assert LocalOk(c, b, x);
      Rebuild(c, a1, b, x);
    }
  }

  lemma {:induction false} InvApplyResume(c: Config, a: Agent, now: int, ds: seq<Directive>)
    requires Inv(c, a) && forall d :: d in ds ==> Ended(a, d)
    ensures Inv(c, ApplyResume(c, a, now, ds).agent)
    ensures ApplyResume(c, a, now, ds).agent.registry.Keys <= a.registry.Keys
  {
    if ds != [] {
      InvApplyResume(c, a, now, ds[..|ds| - 1]);
      var o := ApplyResume(c, a, now, ds[..|ds| - 1]);
      var d := ds[|ds| - 1];
      assert Ended(a, d);
      InvDirected(c, o.agent, now, d);
    }
  }
}
