/** The job manager over mutable objects: `JobState` records shared by the registry and
    the engine callbacks, the durable store, and the daemon's outbound connection.
    Every handler is proved to do what `JobProtocol` says, and to keep the invariant. */
module JobManagement {
  import opened Options
  import opened JobTypes
  import opened EventTable
  import opened JobProtocol
  import opened JobInvariant
  import opened EventLogStore

  /** `Daemon.safeSend`: without an active client a message is dropped. */
  class Connection {
    var online: bool
    var wire: seq<Msg>

    constructor ()
      ensures !online && wire == []
    {
      online, wire := false, [];
    }

    method Send(m: Msg)
      modifies this`wire
      ensures wire == if online then old(wire) + [m] else old(wire)
    {
      if online { wire := wire + [m]; }
    }
  }

  class JobState {
    const id: RunId
    const job: JobId
    const attempt: AttemptId
    var lease: LeaseId
    var status: Status
    var seqNo: nat
    var totalBytes: nat
    var live: bool
    var paused: bool
    var fenced: bool
    var prevLease: Option<LeaseId>
    var overlapUntil: int

    constructor (id: RunId, job: JobId, attempt: AttemptId, lease: LeaseId)
      ensures this.id == id && View() == Run(job, attempt, lease, Accepted, 0, 0, false, false, false, None, 0)
    {
      this.id, this.job, this.attempt, this.lease := id, job, attempt, lease;
      status, seqNo, totalBytes := Accepted, 0, 0;
      live, paused, fenced := false, false, false;
      prevLease, overlapUntil := None, 0;
    }

    function View(): Run
      reads this
    {
      Run(job, attempt, lease, status, seqNo, totalBytes, live, paused, fenced, prevLease, overlapUntil)
    }
  }

  class JobRegistry {
    const maxConcurrent: nat
    var jobs: map<AttemptId, JobState>

    constructor (maxConcurrent: nat)
      ensures this.maxConcurrent == maxConcurrent && jobs == map[]
    {
      this.maxConcurrent := maxConcurrent;
      jobs := map[];
    }

    method Get(x: AttemptId) returns (s: JobState?)
      ensures x in jobs ==> s == jobs[x]
      ensures x !in jobs ==> s == null
    {
      if x in jobs { s := jobs[x]; } else { s := null; }
    }

    method Add(s: JobState)
      modifies this`jobs
      ensures jobs == old(jobs)[s.attempt := s]
    {
      jobs := jobs[s.attempt := s];
    }

    method Remove(x: AttemptId)
      modifies this`jobs
      ensures jobs == old(jobs) - {x}
    {
      jobs := jobs - {x};
    }

    method AtCapacity() returns (full: bool)
      ensures full <==> |jobs| >= maxConcurrent
    {
      full := |jobs| >= maxConcurrent;
    }
  }

  class JobManager {
    const config: Config
    const registry: JobRegistry
    const store: EventLog
    const link: Connection
    var startedAt: map<AttemptId, int>
    var nextId: nat
    var calls: seq<EngineCall>

    /** Every `JobState` this process created, also those no longer registered. */
    ghost var states: map<RunId, JobState>
    ghost var emitted: map<RunId, seq<EventRow>>

    ghost function Registry(): map<AttemptId, RunId>
      reads registry
    {
      map x | x in registry.jobs :: registry.jobs[x].id
    }

    ghost function Runs(): map<RunId, Run>
      reads `states, states.Values
    {
      map id | id in states :: states[id].View()
    }

    ghost function View(): Agent
      reads this, registry, store, states.Values
    {
      Agent(store.attempts, store.events, store.results, Registry(), Runs(), startedAt, nextId, emitted)
    }

    /** The registry and the run ids name the same objects. */
    ghost predicate Linked()
      reads `states, registry
    {
      && registry.maxConcurrent == config.maxConcurrent
      && (forall id :: id in states ==> states[id].id == id)
      && (forall x :: x in registry.jobs ==>
            && registry.jobs[x].attempt == x
            && registry.jobs[x].id in states && states[registry.jobs[x].id] == registry.jobs[x])
    }

    ghost predicate Valid()
      reads this, registry, store, states.Values
    {
      Linked() && Inv(config, View())
    }

    /** The state, the wire and the engine calls have moved as `o` says. */
    twostate predicate Performs(o: Out)
      reads this, registry, store, states.Values, link
    {
      && View() == o.agent
      && link.online == old(link.online)
      && link.wire == (if link.online then old(link.wire) + o.sent else old(link.wire))
      && calls == old(calls) + o.calls
    }

    /** A new process on the store of an earlier one. */
    constructor (config: Config, registry: JobRegistry, store: EventLog, link: Connection,
                 freshId: nat, ghost before: Agent)
      requires registry.jobs == map[] && registry.maxConcurrent == config.maxConcurrent
      requires Inv(config, before) && freshId == before.nextId
      requires before.attempts == store.attempts && before.events == store.events && before.results == store.results
      ensures Valid() && View() == Restart(before)
      ensures this.config == config && this.registry == registry && this.store == store && this.link == link
      ensures calls == [] && states == map[]
    {
      this.config, this.registry, this.store, this.link := config, registry, store, link;
      startedAt, calls := map[], [];
      nextId := freshId;
      states, emitted := map[], before.emitted;
      new;
      InvRestart(config, before);
      assert View() == Restart(before);
    }

    // ---- objects and the values they stand for ----

    lemma Known(s: JobState)
      requires Linked() && s in states.Values
      ensures s.id in states && states[s.id] == s && s.id in Runs() && Runs()[s.id] == s.View()
      ensures forall id :: id in states && id != s.id ==> states[id] != s
      ensures s.attempt in registry.jobs && registry.jobs[s.attempt] == s <==>
              s.attempt in Registry() && Registry()[s.attempt] == s.id
    {
    }

    lemma Registered(x: AttemptId)
      requires Linked()
      ensures x in registry.jobs <==> x in Registry()
      ensures registry.maxConcurrent == config.maxConcurrent && |registry.jobs| == |Registry()|
      ensures Lookup(View(), x) == if x in registry.jobs then Some(registry.jobs[x].View()) else None
      ensures x in registry.jobs ==>
                var s := registry.jobs[x];
                s.attempt == x && s.id == Registry()[x] && s.id in states && states[s.id] == s && s in states.Values
                && s.id in Runs() && Runs()[s.id] == s.View()
                && (forall id :: id in states && id != s.id ==> states[id] != s)
    {
      assert registry.jobs.Keys == Registry().Keys;
      assert |registry.jobs| == |registry.jobs.Keys| && |Registry()| == |Registry().Keys|;
    }

    /** One `JobState` changes: the view changes in that run alone. */
    twostate lemma RunChanged(s: JobState)
      requires old(Linked()) && old(s.id in states && states[s.id] == s)
      requires states == old(states) && registry.jobs == old(registry.jobs)
      requires forall id :: id in states && id != s.id ==> states[id].View() == old(states[id].View())
      ensures Linked() && Registry() == old(Registry()) && Runs() == old(Runs())[s.id := s.View()]
    {
    }

    twostate lemma Added(new s: JobState)
      requires old(Linked()) && fresh(s) && s.id !in old(states)
      requires states == old(states)[s.id := s] && registry.jobs == old(registry.jobs)[s.attempt := s]
      requires forall id :: id in old(states) ==> old(states)[id].View() == old(states[id].View())
      ensures Linked() && s in states.Values
      ensures Registry() == old(Registry())[s.attempt := s.id] && Runs() == old(Runs())[s.id := s.View()]
    {
      assert states[s.id] == s;
    }

    twostate lemma Unregistered(x: AttemptId)
      requires old(Linked()) && states == old(states)
      requires registry.jobs == old(registry.jobs) - {x}
      ensures Linked() && Registry() == old(Registry()) - {x}
    {
    }

    method OverCapNow(x: AttemptId) returns (over: bool)
      ensures over <==> OverCap(config, View(), x)
    {
      var n := store.UnackedEvents(x);
      if n >= config.maxEvents { return true; }
      n := store.UnackedBytes(x);
      if n >= config.maxBytes { return true; }
      n := store.ConnUnackedBytes();
      return n >= config.maxConn;
    }

    method LeaseOkNow(now: int, x: AttemptId, s: JobState?, incoming: LeaseId) returns (ok: bool)
      requires Linked()
      requires s == if x in registry.jobs then registry.jobs[x] else null
      ensures ok <==> LeaseOk(View(), now, x, incoming)
    {
      Registered(x);
      if s != null {
        if incoming == s.lease { return true; }
        return s.prevLease == Some(incoming) && now < s.overlapUntil;
      }
      var row := store.GetAttempt(x);
      return row.Some? && row.value.lease == incoming;
    }

    // ---- engine callbacks ----

    method OnEvent(s: JobState, ev: EngineEvent)
      requires Valid() && s in states.Values && (s.live || s.fenced)
      modifies this, store, link, states.Values
      ensures Valid() && Performs(old(JobProtocol.OnEvent(config, View(), s.id, ev)))
    {
      hide Registry, Runs, Inv, Linked, JobProtocol.OnEvent;
      Known(s);
      InvOnEvent(config, View(), s.id, ev);
      if !s.fenced { KeyIsFree(s); }
      Emit(s, ev);
    }

    method Emit(s: JobState, ev: EngineEvent)
      requires Linked() && s in states.Values && s.id in Runs()
      requires s.fenced || forall r :: r in store.events ==> !(r.attempt == s.attempt && r.seqNo == s.seqNo + 1)
      modifies `calls, `emitted, store, link`wire, s
      ensures Linked() && Performs(old(JobProtocol.OnEvent(config, View(), s.id, ev)))
    {
      hide Registry, Runs, OverCap, RowsOf, Bytes, NewRow, Linked, JobProtocol.OnEvent;
      ghost var a := View();
      Known(s);
      EventOutcome(config, a, s.id, ev);
      if s.fenced { return; }
      ghost var row := Record(s, ev);
      SameRows(config, View(), Append(a, row), s.attempt);
      ghost var going := s.View();
      PauseIfOver(s);
      UpdateTwice(a.runs, s.id, going, s.View());
    }

    method PauseIfOver(s: JobState)
      requires Linked() && s in states.Values
      modifies `calls, s`paused
      ensures Linked()
      ensures var over := old(OverCap(config, View(), s.attempt));
              && s.View() == old(s.View()).(paused := over || old(s.paused))
              && View() == old(View()).(runs := old(View()).runs[s.id := s.View()])
              && calls == old(calls) + if over && s.live then [Pause(s.id)] else []
    {
      hide Registry, Runs, Linked, OverCap;
      Known(s);
      var over := OverCapNow(s.attempt);
      if over {
        s.paused := true;
        if s.live { calls := calls + [Pause(s.id)]; }
      }
      RunChanged(s);
    }

    /** Number the event, persist it, then send it. */
    method Record(s: JobState, ev: EngineEvent) returns (ghost row: EventRow)
      requires Linked() && s in states.Values
      requires forall r :: r in store.events ==> !(r.attempt == s.attempt && r.seqNo == s.seqNo + 1)
      modifies `emitted, store, link`wire, s`seqNo, s`totalBytes
      ensures Linked() && row == old(NewRow(config, s.View(), ev))
      ensures s.View() == old(s.View()).(seqNo := row.seqNo, totalBytes := old(s.totalBytes) + row.bytes)
      ensures var a := old(View());
              View() == Append(a, row).(runs := a.runs[s.id := s.View()], emitted := a.emitted[s.id := Emitted(a, s.id) + [row]])
      ensures link.wire == if link.online then old(link.wire) + [row.payload] else old(link.wire)
    {
      hide Registry, Runs, Linked, Append, Emitted;
      ghost var a := View();
      var numbered := Number(s, ev);
      row := numbered;
      Persist(s.id, numbered);
      AppendBeside(a, row, a.runs[s.id := s.View()]);
      link.Send(numbered.payload);
    }

    /** The next number, the message that bears it, and its size. */
    method Number(s: JobState, ev: EngineEvent) returns (row: EventRow)
      requires Linked() && s in states.Values
      modifies s`seqNo, s`totalBytes
      ensures Linked() && row == old(NewRow(config, s.View(), ev))
      ensures s.View() == old(s.View()).(seqNo := row.seqNo, totalBytes := old(s.totalBytes) + row.bytes)
      ensures View() == old(View()).(runs := old(View()).runs[s.id := s.View()])
    {
      hide Registry, Runs, Linked;
      Known(s);
      s.seqNo := s.seqNo + 1;
      var msg := StreamEvent(s.job, s.attempt, s.lease, s.seqNo, EventId(s.attempt, s.seqNo), ev);
      row := EventRow(s.attempt, s.seqNo, EventId(s.attempt, s.seqNo), config.size(msg), msg);
      s.totalBytes := s.totalBytes + row.bytes;
      RunChanged(s);
    }

    method Persist(ghost id: RunId, row: EventRow)
      requires Linked() && forall r :: r in store.events ==> !(r.attempt == row.attempt && r.seqNo == row.seqNo)
      modifies `emitted, store
      ensures Linked()
      ensures var a := old(View()); View() == Append(a, row).(emitted := a.emitted[id := Emitted(a, id) + [row]])
    {
      hide Registry, Runs, Linked;
      store.AppendEvent(row);
      emitted := emitted[id := old(Emitted(View(), id)) + [row]];
    }

    /** The invariant keeps the primary key of the next event free. */
    lemma KeyIsFree(s: JobState)
      requires Valid() && s in states.Values && s.live && !s.fenced
      ensures forall r :: r in store.events ==> !(r.attempt == s.attempt && r.seqNo == s.seqNo + 1)
    {
      assert states[s.id] == s;
      var a := View();
      assert RunOk(a, s.id) && LocalOk(config, a, s.attempt);
      forall r | r in store.events && r.attempt == s.attempt ensures r.seqNo <= s.seqNo {
        InRows(store.events, r);
        var rows, log := RowsOf(a.events, s.attempt), Log(a, s.attempt);
        var i :| 0 <= i < |rows| && rows[i] == r;
        assert LogRowOk(log[|log| - |rows| + i], s.attempt, s.job, |log| - |rows| + i + 1);
      }
    }

    method OnDone(now: int, s: JobState, o: Outcome)
      requires Valid() && s in states.Values && (s.live || s.fenced)
      modifies this, registry, store, link, states.Values
      ensures Valid() && Performs(old(JobProtocol.OnDone(config, View(), now, s.id, o)))
    {
      hide Registry, Runs, Linked, Inv, JobProtocol.OnDone;
      Known(s);
      InvOnDone(config, View(), now, s.id, o);
      End(now, s, o);
    }

    method End(now: int, s: JobState, o: Outcome)
      requires Linked() && s in states.Values && s.id in Runs()
      modifies `startedAt, `nextId, registry`jobs, store, link`wire, s
      ensures Linked() && Performs(old(JobProtocol.OnDone(config, View(), now, s.id, o)))
    {
      hide Registry, Runs, Linked, JobProtocol.OnDone, Concluded, SetStatus, TerminalStatusOf,
        FinalStatusOf, Finished;
      ghost var a := View();
      Known(s);
      DoneOutcome(config, a, now, s.id, o);
      var since := if s.attempt in startedAt then startedAt[s.attempt] else now;
      Finish(s);
      if s.fenced { return; }
      ghost var ended := s.View();
      ghost var r := Concluded(config, nextId, ended, o, now - since);
      Report(s, o, now - since);
      FinishedTwice(a, s.attempt, s.id, ended, s.View(), r, s.status);
    }

    /** Save the result, then mark the attempt terminal, then send. */
    method Report(s: JobState, o: Outcome, duration: int)
      requires Linked() && s in states.Values
      modifies `nextId, store, link`wire, s`status
      ensures Linked()
      ensures var a, r := old(View()), old(Concluded(config, nextId, s.View(), o, duration));
              && s.View() == old(s.View()).(status := TerminalStatusOf(r.finalStatus))
              && View() == SetStatus(
                   a.(runs := a.runs[s.id := s.View()], results := a.results[s.attempt := r], nextId := a.nextId + 1),
                   s.attempt, s.status)
              && link.wire == if link.online then old(link.wire) + [JobResult(r.payload)] else old(link.wire)
    {
      hide Registry, Runs, Linked;
      var body := ResultBody(
        s.job, s.attempt, s.lease, FinalStatusOf(o), if o.CancelledOutcome? then None else o.exitCode,
        if o.Error? then o.errorKind else None, duration, s.seqNo, s.totalBytes);
      var msg := ResultMsg(nextId, body);
      nextId := nextId + 1;
      store.SaveResult(s.attempt, StoredResult(
        s.job, s.lease, body.finalStatus, config.digest(body), config.size(JobResult(msg)), msg, s.seqNo));
      MarkStatus(s, TerminalStatusOf(body.finalStatus));
      link.Send(JobResult(msg));
    }

    // ---- job.assign ----

    method HandleAssign(now: int, m: AssignMsg)
      requires Valid()
      modifies this, registry, store, link
      ensures Valid() && Performs(old(Assign(config, View(), now, m)))
    {
      hide Registry, Runs, Linked, Inv, Assign;
      InvAssign(config, View(), now, m);
      NextIdIsFresh();
      Answer(now, m);
    }

    method Answer(now: int, m: AssignMsg)
      requires Linked() && nextId !in states
      modifies this, registry, store, link
      ensures Linked() && Performs(old(Assign(config, View(), now, m)))
    {
      hide Registry, Runs, Linked, Begin, Admit, Assign;
      AssignOutcome(config, View(), now, m);
      Registered(m.attempt);
      var s := registry.Get(m.attempt);
      var row := store.GetAttempt(m.attempt);
      if s != null {
        Confirm(m, s.lease, s.id);
      } else if row.Some? {
        Confirm(m, row.value.lease, row.value.run);
      } else {
        var refusal := Screen(m);
        if refusal.Some? {
          link.Send(JobReject(m.job, m.attempt, m.lease, refusal.value));
        } else {
          Launch(now, m);
        }
      }
    }

    /** The attempt is known under `lease`: the same lease is confirmed, another one is stale. */
    method Confirm(m: AssignMsg, lease: LeaseId, run: RunId)
      requires Linked()
      modifies link`wire
      ensures Linked() && Performs(old(Confirmed(View(), m, lease, run)))
    {
      hide Registry, Runs, Linked;
      link.Send(if lease != m.lease then JobReject(m.job, m.attempt, m.lease, StaleLease) else JobAccept(m.job, m.attempt, lease, run));
    }

    /** Capacity first, then the engine's own validation, then the approval gate. */
    method Screen(m: AssignMsg) returns (refusal: Option<RejectCode>)
      requires Linked()
      ensures refusal == Admit(config, View(), m)
    {
      Registered(m.attempt);
      var full := registry.AtCapacity();
      if full { return Some(Busy); }
      if m.rejection.Some? { return m.rejection; }
      if !config.gateAvailable && m.gated { return Some(PolicyViolation); }
      return None;
    }

    lemma NextIdIsFresh()
      requires Valid()
      ensures nextId !in states
    {
      forall id | id in states ensures id < nextId { assert RunOk(View(), id); }
    }

    /** Row, record, registry entry; accept; running; start the engine. */
    method Launch(now: int, m: AssignMsg)
      requires Linked() && nextId !in states && m.attempt !in registry.jobs && m.attempt !in store.attempts
      modifies this, registry, store, link
      ensures Linked() && Performs(old(Begin(View(), now, m)))
    {
      hide Registry, Runs, Linked, SetStatus;
      ghost var a := View();
      var s := Enlist(now, m);
      ghost var accepted := s.View();
      link.Send(JobAccept(m.job, m.attempt, m.lease, s.id));
      Activate(now, s);
      BeginSteps(a, now, m, accepted, s.View());
    }

    method Activate(now: int, s: JobState)
      requires Linked() && s in states.Values
      modifies `startedAt, `calls, store`attempts, link`wire, s`status, s`live
      ensures Linked() && s.View() == old(s.View()).(status := Running, live := true)
      ensures var a := old(View());
              View() == SetStatus(a.(runs := a.runs[s.id := s.View()], started := a.started[s.attempt := now]), s.attempt, Running)
      ensures calls == old(calls) + [Start(s.id)]
      ensures link.wire == if link.online then old(link.wire) + [JobStatus(s.job, s.attempt, s.lease, Running)] else old(link.wire)
    {
      hide Registry, Runs, Linked, SetStatus;
      ghost var a := View().(started := View().started[s.attempt := now]);
      startedAt := startedAt[s.attempt := now];
      MarkStatus(s, Running);
      ghost var marked := s.View();
      link.Send(JobStatus(s.job, s.attempt, s.lease, Running));
      StartRun(s);
      MarkedTwice(a, s.attempt, s.id, marked, s.View(), Running);
    }

    method StartRun(s: JobState)
      requires Linked() && s in states.Values
      modifies `calls, s`live
      ensures Linked() && s.View() == old(s.View()).(live := true)
      ensures View() == old(View()).(runs := old(View()).runs[s.id := s.View()])
      ensures calls == old(calls) + [Start(s.id)]
    {
      hide Registry, Runs, Linked;
      Known(s);
      s.live := true;
      calls := calls + [Start(s.id)];
      RunChanged(s);
    }

    /** A row and a fresh record, known to the registry. */
    method Enlist(now: int, m: AssignMsg) returns (s: JobState)
      requires Linked() && nextId !in states && m.attempt !in store.attempts
      modifies `states, `emitted, `nextId, registry`jobs, store`attempts
      ensures Linked() && fresh(s) && s in states.Values && s.attempt == m.attempt
      ensures s.View() == Run(m.job, m.attempt, m.lease, Accepted, 0, 0, false, false, false, None, 0)
      ensures View() == Enlisted(old(View()), now, m, s.View()) && s.id == old(nextId)
    {
      hide Registry, Runs, Linked;
      var created := store.CreateAttempt(m.attempt, Attempt(m.job, m.lease, nextId, Accepted, now, 0));
      s := new JobState(nextId, m.job, m.attempt, m.lease);
      nextId := nextId + 1;
      registry.Add(s);
      states := states[s.id := s];
      emitted := emitted[s.id := []];
      Added(s);
    }

    // ---- acknowledgements ----

    method HandleStreamAck(now: int, x: AttemptId, lease: LeaseId, k: nat)
      requires Valid()
      modifies this, store, link, states.Values
      ensures Valid() && Performs(old(StreamAck(config, View(), now, x, lease, k)))
    {
      hide Registry, Runs, Linked, Inv, StreamAck;
      InvStreamAck(config, View(), now, x, lease, k);
      Acknowledge(now, x, lease, k);
    }

    method Acknowledge(now: int, x: AttemptId, lease: LeaseId, k: nat)
      requires Linked()
      modifies `calls, store`events, states.Values
      ensures Linked() && Performs(old(StreamAck(config, View(), now, x, lease, k)))
    {
      hide Registry, Runs, Linked, LeaseOk, OverCap, Lookup;
      Registered(x);
      var s := registry.Get(x);
      var ok := LeaseOkNow(now, x, s, lease);
      if ok { Credit(x, k, s); }
    }

    /** Forget the acknowledged rows; resume a paused run that is under its caps again. */
    method Credit(x: AttemptId, k: nat, s: JobState?)
      requires Linked() && s == if x in registry.jobs then registry.jobs[x] else null
      modifies `calls, store`events, if s != null then {s} else {}
      ensures Linked()
      ensures var a, b := old(View()), old(View()).(events := Acked(old(View()).events, x, k));
              var wake := s != null && old(s.paused) && !OverCap(config, b, x);
              && View() == (if wake then b.(runs := a.runs[s.id := old(s.View()).(paused := false)]) else b)
              && calls == old(calls) + if wake && old(s.live) then [Resume(s.id)] else []
    {
      hide Registry, Runs, Linked, OverCap;
      Registered(x);
      ghost var b := View().(events := Acked(View().events, x, k));
      store.AckEvents(x, k);
      if s != null && s.paused {
        var over := OverCapNow(x);
        SameRows(config, View(), b, x);
        if !over { ResumeRun(s); }
      }
    }

    method HandleResultAck(now: int, x: AttemptId, lease: LeaseId, digest: Digest)
      requires Valid()
      modifies this, registry, store, link
      ensures Valid() && Performs(old(ResultAck(View(), now, x, lease, digest)))
    {
      hide Registry, Runs, Linked, Inv, ResultAck;
      InvResultAck(config, View(), now, x, lease, digest);
      Settle(now, x, lease, digest);
    }

    method Settle(now: int, x: AttemptId, lease: LeaseId, digest: Digest)
      requires Linked()
      modifies `startedAt, registry`jobs, store
      ensures Linked() && Performs(old(ResultAck(View(), now, x, lease, digest)))
    {
      hide Registry, Runs, Linked, LeaseOk, Dropped, DeleteAttempt, ResultAck;
      ResultAckOutcome(View(), now, x, lease, digest);
      var s := registry.Get(x);
      var ok := LeaseOkNow(now, x, s, lease);
      if ok { Collect(x, digest); }
    }

    /** A matching digest collects the result and everything kept for the attempt. */
    method Collect(x: AttemptId, digest: Digest)
      requires Linked()
      modifies `startedAt, registry`jobs, store
      ensures Linked()
      ensures var a := old(View());
              View() ==
              if x !in a.results || a.results[x].digest != digest then a
              else DeleteAttempt(a, x).(results := a.results - {x}, registry := a.registry - {x}, started := a.started - {x})
    {
      hide Registry, Runs, Linked, Dropped;
      var collected := store.AckResult(x, digest);
      if collected {
        store.DeleteAttempt(x);
        Unregister(x);
      }
    }

    method Unregister(x: AttemptId)
      requires Linked()
      modifies `startedAt, registry`jobs
      ensures Linked()
      ensures var a := old(View()); View() == a.(registry := a.registry - {x}, started := a.started - {x})
    {
      hide Registry, Runs, Linked;
      registry.Remove(x);
      Unregistered(x);
      startedAt := startedAt - {x};
    }

    // ---- leases, cancellation, fencing ----

    method AdoptLease(now: int, x: AttemptId, lease: LeaseId)
      requires Linked()
      modifies store`attempts, states.Values
      ensures Linked() && View() == old(JobProtocol.AdoptLease(View(), now, x, lease))
    {
      hide Registry, Runs, Linked;
      Registered(x);
      store.SetAttemptLease(x, lease);
      var s := registry.Get(x);
      if s != null && s.lease != lease { RotateRun(s, lease, now); }
    }

    method HandleLeaseGranted(now: int, x: AttemptId, lease: LeaseId)
      requires Valid()
      modifies this, store, states.Values
      ensures Valid() && Performs(old(LeaseGranted(View(), now, x, lease)))
    {
      hide Registry, Runs, Linked, Inv, LeaseGranted;
      InvLeaseGranted(config, View(), now, x, lease);
      Grant(now, x, lease);
    }

    method Grant(now: int, x: AttemptId, lease: LeaseId)
      requires Linked()
      modifies store`attempts, states.Values
      ensures Linked() && Performs(old(LeaseGranted(View(), now, x, lease)))
    {
      hide Registry, Runs, Linked, Rotate;
      Registered(x);
      var s := registry.Get(x);
      if s == null { return; }
      RotateRun(s, lease, now);
      store.SetAttemptLease(x, lease);
    }

    method HandleCancel(now: int, x: AttemptId, lease: LeaseId, grace: nat)
      requires Valid()
      modifies this, store, link, states.Values
      ensures Valid() && Performs(old(CancelJob(View(), now, x, lease, grace)))
    {
      hide Registry, Runs, Linked, Inv, CancelJob;
      InvCancelJob(config, View(), now, x, lease, grace);
      CancelLive(now, x, lease, grace);
    }

    method CancelLive(now: int, x: AttemptId, lease: LeaseId, grace: nat)
      requires Linked()
      modifies `calls, store`attempts, link`wire, states.Values
      ensures Linked() && Performs(old(CancelJob(View(), now, x, lease, grace)))
    {
      hide Registry, Runs, Linked, LeaseOk, Lookup, SetStatus;
      Registered(x);
      var s := registry.Get(x);
      if s == null { return; }
      var ok := LeaseOkNow(now, x, s, lease);
      if ok { CancelRun(s, grace); }
    }

    method CancelRun(s: JobState, grace: nat)
      requires Linked() && s in states.Values
      modifies `calls, store`attempts, link`wire, s`status
      ensures Linked() && s.View() == old(s.View()).(status := Cancelling)
      ensures var a := old(View()); View() == SetStatus(a.(runs := a.runs[s.id := s.View()]), s.attempt, Cancelling)
      ensures link.wire == if link.online then old(link.wire) + [JobStatus(s.job, s.attempt, s.lease, Cancelling)] else old(link.wire)
      ensures calls == old(calls) + if s.live then [Cancel(s.id, grace)] else []
    {
      hide Registry, Runs, Linked;
      MarkStatus(s, Cancelling);
      link.Send(JobStatus(s.job, s.attempt, s.lease, Cancelling));
      if s.live { calls := calls + [Cancel(s.id, grace)]; }
    }

    method HandleRevoke(now: int, x: AttemptId, lease: LeaseId)
      requires Valid()
      modifies this, registry, store, link, states.Values
      ensures Valid() && Performs(old(Revoke(View(), now, x, lease)))
    {
      hide Registry, Runs, Linked, Inv, Revoke;
      InvRevoke(config, View(), now, x, lease);
      RevokeLive(now, x, lease);
    }

    method RevokeLive(now: int, x: AttemptId, lease: LeaseId)
      requires Linked()
      modifies `startedAt, `calls, registry`jobs, store`attempts, store`events, states.Values
      ensures Linked() && Performs(old(Revoke(View(), now, x, lease)))
    {
      hide Registry, Runs, Linked, LeaseOk, JobProtocol.Fence, Lookup, Dropped;
      Registered(x);
      var s := registry.Get(x);
      if s == null { return; }
      var ok := LeaseOkNow(now, x, s, lease);
      if !ok { return; }
      FenceRun(s);
      store.DeleteAttempt(x);
    }

    // ---- changes to one run ----

    method ResumeRun(s: JobState)
      requires Linked() && s in states.Values
      modifies `calls, s`paused
      ensures Linked() && s.View() == old(s.View()).(paused := false)
      ensures View() == old(View()).(runs := old(View()).runs[s.id := s.View()])
      ensures calls == old(calls) + if s.live then [Resume(s.id)] else []
    {
      hide Registry, Runs, Linked;
      Known(s);
      s.paused := false;
      if s.live { calls := calls + [Resume(s.id)]; }
      RunChanged(s);
    }

    method RotateRun(s: JobState, lease: LeaseId, now: int)
      requires Linked() && s in states.Values
      modifies s`lease, s`prevLease, s`overlapUntil
      ensures Linked() && s.View() == Rotate(old(s.View()), lease, now)
      ensures View() == old(View()).(runs := old(View()).runs[s.id := s.View()])
    {
      hide Registry, Runs, Linked;
      Known(s);
      s.prevLease := Some(s.lease);
      s.lease := lease;
      s.overlapUntil := now + LEASE_ROTATION_OVERLAP_MS;
      RunChanged(s);
    }

    /** The status of the record and of its row move together. */
    method MarkStatus(s: JobState, status: Status)
      requires Linked() && s in states.Values
      modifies store`attempts, s`status
      ensures Linked() && s.View() == old(s.View()).(status := status)
      ensures var a := old(View()); View() == SetStatus(a.(runs := a.runs[s.id := s.View()]), s.attempt, status)
    {
      hide Registry, Runs, Linked;
      Known(s);
      s.status := status;
      store.SetAttemptStatus(s.attempt, status);
      RunChanged(s);
    }

    /** The run is over; if it still is the registered one, its entries go. */
    method Finish(s: JobState)
      requires Linked() && s in states.Values
      modifies `startedAt, registry`jobs, s`live
      ensures Linked() && s.View() == old(s.View()).(live := false)
      ensures View() == Finished(old(View()), s.attempt, s.id, s.View())
    {
      hide Registry, Runs, Linked;
      Known(s);
      var registered := registry.Get(s.attempt);
      var current := registered == s;
      if current { startedAt := startedAt - {s.attempt}; }
      s.live := false;
      RunChanged(s);
      if current {
        label L:
        registry.Remove(s.attempt);
        Unregistered@L(s.attempt);
      }
    }

    /** Local fence: silence the run, cancel it and forget it. */
    method FenceRun(s: JobState)
      requires Linked() && s.attempt in registry.jobs && registry.jobs[s.attempt] == s
      modifies `startedAt, `calls, registry`jobs, s`fenced
      ensures Linked()
      ensures var o := old(JobProtocol.Fence(View(), s.attempt)); View() == o.agent && calls == old(calls) + o.calls
    {
      hide Registry, Runs, Linked;
      Registered(s.attempt);
      s.fenced := true;
      if s.live { calls := calls + [Cancel(s.id, 0)]; }
      RunChanged(s);
      label L:
      registry.Remove(s.attempt);
      Unregistered@L(s.attempt);
      startedAt := startedAt - {s.attempt};
    }

    // ---- hello.accepted.resume[] ----

    method HandleResumeFrom(now: int, x: AttemptId, k: nat, lease: Option<LeaseId>)
      requires Valid()
      modifies store, link, states.Values
      ensures Valid() && Performs(old(Directed(config, View(), now, ResumeFrom(x, k, lease))))
    {
      hide Registry, Runs, Linked, Inv, Directed;
      InvDirected(config, View(), now, ResumeFrom(x, k, lease));
      ResendStored(now, x, k, lease);
    }

    method ResendStored(now: int, x: AttemptId, k: nat, lease: Option<LeaseId>)
      requires Linked()
      modifies store`attempts, link`wire, states.Values
      ensures Linked() && Performs(old(Directed(config, View(), now, ResumeFrom(x, k, lease))))
    {
      hide Registry, Runs, Linked, JobProtocol.AdoptLease, EventsAfter, Payloads, Directed;
      ResumeOutcome(config, View(), now, x, k, lease);
      if lease.Some? { AdoptLease(now, x, lease.value); }
      var rows := store.StoredAfter(x, k);
      Resend(rows, lease);
    }

    method HandleResendResult(now: int, x: AttemptId, lease: Option<LeaseId>)
      requires Valid()
      modifies this, store, link, states.Values
      ensures Valid() && Performs(old(Directed(config, View(), now, ResendResult(x, lease)))) && states == old(states)
    {
      hide Registry, Runs, Linked, Inv, Directed;
      InvDirected(config, View(), now, ResendResult(x, lease));
      ResendPending(now, x, lease);
    }

    method ResendPending(now: int, x: AttemptId, lease: Option<LeaseId>)
      requires Linked()
      modifies `nextId, store, link`wire, states.Values
      ensures Linked() && Performs(old(Directed(config, View(), now, ResendResult(x, lease))))
    {
      hide Registry, Runs, Linked, JobProtocol.AdoptLease, Restamped;
      if lease.Some? { AdoptLease(now, x, lease.value); }
      SendRestamped(x, lease);
    }

    /** Give the stored result the new lease and a fresh envelope; store that, then send it. */
    method SendRestamped(x: AttemptId, lease: Option<LeaseId>)
      requires Linked()
      modifies `nextId, store`results, link`wire
      ensures Linked()
      ensures var a := old(View());
              if x !in a.results then View() == a && link.wire == old(link.wire)
              else
                var b := Restamped(config, a.results[x], lease, a.nextId);
                && View() == a.(results := a.results[x := b], nextId := a.nextId + 1)
                && link.wire == if link.online then old(link.wire) + [JobResult(b.payload)] else old(link.wire)
    {
      hide Registry, Runs, Linked;
      var r := store.GetResult(x);
      if r.Some? {
        var l := if lease.Some? then lease.value else r.value.payload.body.lease;
        var msg := ResultMsg(nextId, r.value.payload.body.(lease := l));
        nextId := nextId + 1;
        store.UpdateResult(x, l, config.digest(msg.body), msg, config.size(JobResult(msg)));
        link.Send(JobResult(msg));
      }
    }

    method HandleAckPending(now: int, x: AttemptId)
      requires Valid() && x !in registry.jobs
      modifies this, registry, store
      ensures Valid() && Performs(old(Directed(config, View(), now, AckPending(x)))) && states == old(states)
    {
      hide Registry, Runs, Linked, Inv, Ended, Dropped, DeleteAttempt, Directed;
      Registered(x);
      assert Ended(View(), AckPending(x)) by { NotRegistered(View(), x); }
      InvDirected(config, View(), now, AckPending(x));
      AckPendingOutcome(config, View(), now, x);
      Forget(x);
    }

    /** Result, row, events and registration go; `startedAt` does not. */
    method Forget(x: AttemptId)
      requires Linked()
      modifies registry`jobs, store
      ensures Linked()
      ensures var a := old(View());
              View() == DeleteAttempt(a, x).(results := a.results - {x}, registry := a.registry - {x})
    {
      hide Registry, Runs, Linked, Dropped;
      Erase(x);
      Unlist(x);
    }

    method HandleAbandon(now: int, x: AttemptId)
      requires Valid()
      modifies this, registry, store, states.Values
      ensures Valid() && Performs(old(Directed(config, View(), now, Abandon(x)))) && states == old(states)
    {
      hide Registry, Runs, Linked, Inv, Directed;
      InvDirected(config, View(), now, Abandon(x));
      GiveUp(now, x);
    }

    method GiveUp(now: int, x: AttemptId)
      requires Linked()
      modifies `startedAt, `calls, registry`jobs, store, states.Values
      ensures Linked() && Performs(old(Directed(config, View(), now, Abandon(x))))
    {
      hide Registry, Runs, Linked, JobProtocol.Fence, Dropped, Directed, DeleteAttempt;
      Registered(x);
      AbandonOutcome(config, View(), now, x);
      FenceUnknown(View(), x);
      var s := registry.Get(x);
      if s != null { FenceRun(s); }
      Erase(x);
    }

    /** The pending result, the row and its events go. */
    method Erase(x: AttemptId)
      requires Linked()
      modifies store
      ensures Linked()
      ensures var a := old(View()); View() == DeleteAttempt(a, x).(results := a.results - {x})
    {
      hide Registry, Runs, Linked, Dropped;
      store.DeleteResult(x);
      store.DeleteAttempt(x);
    }

    method Unlist(x: AttemptId)
      requires Linked()
      modifies registry`jobs
      ensures Linked() && View() == old(View()).(registry := old(View()).registry - {x})
    {
      hide Registry, Runs, Linked;
      registry.Remove(x);
      Unregistered(x);
    }

    lemma MayGo(d: Directive)
      requires Linked() && Ended(View(), d)
      ensures d.AckPending? ==> d.attempt !in registry.jobs
    {
      Registered(d.attempt);
    }

    method Direct(now: int, d: Directive)
      requires Valid() && Ended(View(), d)
      modifies this, registry, store, link, states.Values
      ensures Valid() && Performs(old(Directed(config, View(), now, d))) && states == old(states)
    {
      hide Registry, Runs, Linked, Inv, Directed, Ended;
      MayGo(d);
      match d
      case ResumeFrom(x, k, lease) => HandleResumeFrom(now, x, k, lease);
      case ResendResult(x, lease) => HandleResendResult(now, x, lease);
      case AckPending(x) => HandleAckPending(now, x);
      case Abandon(x) => HandleAbandon(now, x);
    }

    method Resend(rows: seq<EventRow>, lease: Option<LeaseId>)
      modifies link`wire
      ensures link.wire == if link.online then old(link.wire) + Payloads(rows, lease) else old(link.wire)
    {
      var i := 0;
      while i < |rows|
        invariant 0 <= i <= |rows|
        invariant link.wire == if link.online then old(link.wire) + Payloads(rows[..i], lease) else old(link.wire)
      {
        link.Send(Restamp(rows[i].payload, lease));
        i := i + 1;
        assert rows[..i][..i - 1] == rows[..i - 1];
      }
      assert rows[..i] == rows;
    }

    method ApplyDirectives(now: int, ds: seq<Directive>)
      requires Valid() && forall d :: d in ds ==> Ended(View(), d)
      modifies this, registry, store, link, states.Values
      ensures Valid() && Performs(old(ApplyResume(config, View(), now, ds)))
    {
      hide Registry, Runs, Linked, Inv, Directed, ApplyResume, Ended;
      ghost var a := View();
      var i := 0;
      ApplyNone(config, a, now);
      while i < |ds|
        invariant 0 <= i <= |ds| && Valid() && states == old(states)
        invariant Performs(ApplyResume(config, a, now, ds[..i]))
      {
        ApplyOne(config, a, now, ds, i);
        ghost var sent, called := link.wire, calls;
        Direct(now, ds[i]);
        i := i + 1;
        Regroup(old(link.wire), ApplyResume(config, a, now, ds[..i - 1]).sent, link.wire[|sent|..]);
        Regroup(old(calls), ApplyResume(config, a, now, ds[..i - 1]).calls, calls[|called|..]);
      }
      assert ds[..i] == ds;
    }
  }

  lemma MarkedTwice(a: Agent, x: AttemptId, id: RunId, r: Run, t: Run, status: Status)
    ensures var b := SetStatus(a.(runs := a.runs[id := r]), x, status);
            b.(runs := b.runs[id := t]) == SetStatus(a.(runs := a.runs[id := t]), x, status)
  {
    UpdateTwice(a.runs, id, r, t);
  }

  /** The answer to an assignment of an attempt that is already known. */
  ghost function Confirmed(a: Agent, m: AssignMsg, lease: LeaseId, run: RunId): Out {
    Out(a, [if lease != m.lease then JobReject(m.job, m.attempt, m.lease, StaleLease) else JobAccept(m.job, m.attempt, lease, run)], [])
  }

  lemma AssignOutcome(c: Config, a: Agent, now: int, m: AssignMsg)
    ensures var x := m.attempt;
            Assign(c, a, now, m) ==
            if Lookup(a, x).Some? then Confirmed(a, m, Lookup(a, x).value.lease, a.registry[x])
            else if x in a.attempts then Confirmed(a, m, a.attempts[x].lease, a.attempts[x].run)
            else if Admit(c, a, m).Some? then Out(a, [JobReject(m.job, x, m.lease, Admit(c, a, m).value)], [])
            else Begin(a, now, m)
  {
    hide Admit, Begin;
  }

  lemma UpdateTwice(runs: map<RunId, Run>, id: RunId, r: Run, t: Run)
    ensures runs[id := r][id := t] == runs[id := t]
  {
  }

  lemma Regroup<T>(x: seq<T>, y: seq<T>, z: seq<T>)
    ensures (x + y) + z == x + (y + z)
  {
  }

  lemma ApplyNone(c: Config, a: Agent, now: int)
    ensures ApplyResume(c, a, now, []) == Quiet(a)
  {
  }

  lemma ApplyOne(c: Config, a: Agent, now: int, ds: seq<Directive>, i: nat)
    requires Inv(c, a) && i < |ds| && forall d :: d in ds ==> Ended(a, d)
    ensures var o := ApplyResume(c, a, now, ds[..i]);
            var p := Directed(c, o.agent, now, ds[i]);
            Ended(o.agent, ds[i]) && ApplyResume(c, a, now, ds[..i + 1]) == Out(p.agent, o.sent + p.sent, o.calls + p.calls)
  {
    assert ds[..i + 1][..i] == ds[..i];
    assert ds[i] in ds;
    InvApplyResume(c, a, now, ds[..i]);
  }

  lemma ResultAckOutcome(a: Agent, now: int, x: AttemptId, lease: LeaseId, digest: Digest)
    ensures ResultAck(a, now, x, lease, digest) ==
            Quiet(if !LeaseOk(a, now, x, lease) || x !in a.results || a.results[x].digest != digest then a
                  else DeleteAttempt(a, x).(results := a.results - {x}, registry := a.registry - {x}, started := a.started - {x}))
  {
  }

  lemma AbandonOutcome(c: Config, a: Agent, now: int, x: AttemptId)
    ensures Directed(c, a, now, Abandon(x)) ==
            Out(DeleteAttempt(Fence(a, x).agent, x).(results := Fence(a, x).agent.results - {x}), [], Fence(a, x).calls)
  {
    FenceKeepsResults(a, x);
  }

  lemma FenceKeepsResults(a: Agent, x: AttemptId)
    ensures Fence(a, x).agent.results == a.results
  {
  }

  lemma ResumeOutcome(c: Config, a: Agent, now: int, x: AttemptId, k: nat, lease: Option<LeaseId>)
    ensures var b := if lease.Some? then AdoptLease(a, now, x, lease.value) else a;
            Directed(c, a, now, ResumeFrom(x, k, lease)) == Out(b, Payloads(EventsAfter(b.events, x, k), lease), [])
  {
    hide EventsAfter, Payloads;
  }

  lemma AckPendingOutcome(c: Config, a: Agent, now: int, x: AttemptId)
    ensures Directed(c, a, now, AckPending(x)) ==
            Quiet(DeleteAttempt(a, x).(results := a.results - {x}, registry := a.registry - {x}))
  {
  }

  lemma NotRegistered(a: Agent, x: AttemptId)
    requires x !in a.registry
    ensures Ended(a, AckPending(x))
  {
  }

  lemma FenceUnknown(a: Agent, x: AttemptId)
    ensures Lookup(a, x).None? ==> JobProtocol.Fence(a, x) == Quiet(a)
  {
  }

  /** Storing an event does not look at the runs. */
  lemma AppendBeside(a: Agent, row: EventRow, runs: map<RunId, Run>)
    ensures Append(a.(runs := runs), row) == Append(a, row).(runs := runs)
    ensures forall id :: Emitted(a.(runs := runs), id) == Emitted(a, id)
  {
  }

  /** The caps look at nothing but the event table. */
  lemma SameRows(c: Config, a: Agent, b: Agent, x: AttemptId)
    requires a.events == b.events
    ensures OverCap(c, a, x) == OverCap(c, b, x)
  {
  }

  lemma EventOutcome(c: Config, a: Agent, id: RunId, ev: EngineEvent)
    requires id in a.runs
    ensures var run, row, o := a.runs[id], NewRow(c, a.runs[id], ev), JobProtocol.OnEvent(c, a, id, ev);
            if run.fenced then o == Quiet(a)
            else
              var over := OverCap(c, Append(a, row), run.attempt);
              o == Out(Append(a, row).(
                         runs := a.runs[id := run.(seqNo := row.seqNo, totalBytes := run.totalBytes + row.bytes,
                                                   paused := over || run.paused)],
                         emitted := a.emitted[id := Emitted(a, id) + [row]]),
                       [row.payload], if over && run.live then [Pause(id)] else [])
  {
    var run, row := a.runs[id], NewRow(c, a.runs[id], ev);
    var run1 := run.(seqNo := row.seqNo, totalBytes := run.totalBytes + row.bytes);
    SameRows(c, Append(a, row), Append(a, row).(runs := a.runs[id := run1], emitted := a.emitted[id := Emitted(a, id) + [row]]), run.attempt);
    hide OverCap;
  }

  ghost function Enlisted(a: Agent, now: int, m: AssignMsg, run: Run): Agent {
    a.(attempts := a.attempts[m.attempt := Attempt(m.job, m.lease, a.nextId, Accepted, now, 0)],
       registry := a.registry[m.attempt := a.nextId], runs := a.runs[a.nextId := run],
       nextId := a.nextId + 1, emitted := a.emitted[a.nextId := []])
  }

  /** Accepting and then activating is beginning. */
  lemma BeginSteps(a: Agent, now: int, m: AssignMsg, accepted: Run, running: Run)
    requires running == Run(m.job, m.attempt, m.lease, Running, 0, 0, true, false, false, None, 0)
    ensures var b := Enlisted(a, now, m, accepted);
            SetStatus(b.(runs := b.runs[a.nextId := running], started := b.started[m.attempt := now]), m.attempt, Running)
            == Begin(a, now, m).agent
  {
    assert a.runs[a.nextId := accepted][a.nextId := running] == a.runs[a.nextId := running];
    var row := Attempt(m.job, m.lease, a.nextId, Accepted, now, 0);
    assert a.attempts[m.attempt := row][m.attempt := row.(status := Running)] == a.attempts[m.attempt := row.(status := Running)];
  }

  /** Run `id` of `x` is over and stands as `run`. */
  ghost function Finished(a: Agent, x: AttemptId, id: RunId, run: Run): Agent {
    var current := x in a.registry && a.registry[x] == id;
    a.(runs := a.runs[id := run],
       started := if current then a.started - {x} else a.started,
       registry := if current then a.registry - {x} else a.registry)
  }

  /** Marking it afterwards, with the result row, is finishing it marked. */
  lemma FinishedTwice(a: Agent, x: AttemptId, id: RunId, r: Run, t: Run, result: StoredResult, status: Status)
    ensures var b := Finished(a, x, id, r);
            && b.nextId == a.nextId && id in b.runs
            && SetStatus(b.(runs := b.runs[id := t], results := b.results[x := result], nextId := b.nextId + 1), x, status)
               == SetStatus(Finished(a, x, id, t).(results := a.results[x := result], nextId := a.nextId + 1), x, status)
  {
    UpdateTwice(a.runs, id, r, t);
    hide SetStatus;
  }

  /** The result row of a run that ends with `o`. */
  ghost function Concluded(c: Config, envelope: nat, run: Run, o: Outcome, duration: int): StoredResult {
    var body := ResultOf(run, o, duration);
    var msg := ResultMsg(envelope, body);
    StoredResult(run.job, run.lease, body.finalStatus, c.digest(body), c.size(JobResult(msg)), msg, run.seqNo)
  }

  lemma DoneOutcome(c: Config, a: Agent, now: int, id: RunId, o: Outcome)
    requires id in a.runs
    ensures var run, x := a.runs[id], a.runs[id].attempt;
            var since := if x in a.started then a.started[x] else now;
            var r := Concluded(c, a.nextId, run.(live := false), o, now - since);
            var status := TerminalStatusOf(r.finalStatus);
            JobProtocol.OnDone(c, a, now, id, o) ==
            if run.fenced then Quiet(Finished(a, x, id, run.(live := false)))
            else Out(SetStatus(Finished(a, x, id, run.(live := false, status := status)).(
                                 results := a.results[x := r], nextId := a.nextId + 1), x, status),
                     [JobResult(r.payload)], [])
  {
    hide SetStatus, TerminalStatusOf, FinalStatusOf;
  }

  lemma {:induction false} InRows(rows: seq<EventRow>, r: EventRow)
    requires r in rows
    ensures r in RowsOf(rows, r.attempt)
  {
    var init, last := rows[..|rows| - 1], rows[|rows| - 1];
    assert rows == init + [last];
    if r in init { InRows(init, r); }
  }
}
