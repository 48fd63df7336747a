/** What reaches the wire, the store and the engine, told from the inputs alone: the
    messages of a run with their sizes and envelopes, when its attempt began, and what the
    engine was last asked to do. */
module JobTraffic {
  import opened Options
  import opened JobTypes
  import opened EventTable
  import opened JobProtocol
  import opened JobInvariant
  import opened JobRuns
  import opened JobLeases
  import opened JobReports

  // ---- the messages of a run ----

  /** An event is sent once, under the next number, the current lease and its own id, with
      what the engine said, and exactly that message and its size are stored. */
  lemma EventIsSaid(c: Config, a: Agent, id: RunId, ev: EngineEvent)
    requires Inv(c, a) && id in a.runs && a.runs[id].live && !a.runs[id].fenced
    ensures var o, x := OnEvent(c, a, id, ev), a.runs[id].attempt;
            && x in a.attempts
            && var row, n := a.attempts[x], a.attempts[x].lastSeq + 1;
               var m := StreamEvent(row.job, x, row.lease, n, EventId(x, n), ev);
               && o.sent == [m]
               && o.agent.events == a.events + [EventRow(x, n, EventId(x, n), c.size(m), m)]
               && o.agent.attempts == a.attempts[x := row.(lastSeq := n)]
               && o.agent.results == a.results && o.agent.registry == a.registry && o.agent.nextId == a.nextId
  {
    hide RowsOf, Bytes, Window, LogOk, OverCap, Emitted;
    assert RunOk(a, id) && LocalOk(c, a, a.runs[id].attempt);
    hide Inv;
  }

  /** The end of a run is told once, by the result that is stored, under a fresh envelope. */
  lemma EndIsSaid(c: Config, a: Agent, now: int, id: RunId, end: Outcome)
    requires Inv(c, a) && id in a.runs && a.runs[id].live && !a.runs[id].fenced
    ensures var o, x := OnDone(c, a, now, id, end), a.runs[id].attempt;
            && x in o.agent.results && o.sent == [JobResult(o.agent.results[x].payload)] && o.calls == []
            && o.agent.results[x].payload.envelope == a.nextId && o.agent.nextId == a.nextId + 1
            && o.agent.results - {x} == a.results - {x} && x !in o.agent.registry
            && o.agent.events == a.events
  {
    assert RunOk(a, id);
    hide Inv, ResultOf, TerminalStatusOf, FinalStatusOf;
  }

  /** `resume_from k` sends what was sent for the events after the resume point, message by
      message; only the lease is another one, if the directive names one. */
  lemma ResumeIsSaid(c: Config, a: Agent, now: int, x: AttemptId, k: nat, lease: Option<LeaseId>)
    requires Inv(c, a)
    ensures var sent := Directed(c, a, now, ResumeFrom(x, k, lease)).sent;
            if x !in a.attempts then sent == []
            else
              var from := ResumePoint(a, x, k);
              && 0 <= from <= |Log(a, x)| && |sent| == |Log(a, x)| - from
              && forall i :: 0 <= i < |sent| ==>
                   var said := Log(a, x)[from + i].payload;
                   && said.StreamEvent?
                   && sent[i] == if lease.Some? then said.(lease := lease.value) else said
  {
    hide Inv, ResumePoint, EventsAfter, Adopted;
    AdoptedKeeps(a, now, x, lease);
    LocalOf(c, a, x);
    if x in a.attempts {
      ResumedRows(c, a, x, k);
      var log, from := Log(a, x), ResumePoint(a, x, k);
      forall i | 0 <= i < |log| - from ensures log[from..][i].payload.StreamEvent? && log[from..][i] == log[from + i] {
        assert LogRowOk(log[from + i], x, a.attempts[x].job, from + i + 1);
      }
    } else {
      NothingToResume(c, a, x, k);
    }
  }

  // ---- when an attempt began ----

  /** The time and the job of an assignment. */
  datatype Birth = Birth(at: int, job: JobId)

  ghost function BornBy(a: Agent, i: Input, x: AttemptId, before: Option<Birth>): Option<Birth> {
    if i.InAssign? && i.m.attempt == x && x !in a.attempts then Some(Birth(i.now, i.m.job)) else before
  }

  /** The last assignment of `x` that met no row of `x`. */
  ghost function BornOver(c: Config, a: Agent, tr: seq<Input>, x: AttemptId, before: Option<Birth>): Option<Birth>
    requires Possible(c, a, tr)
    decreases |tr|
  {
    if tr == [] then before
    else BornOver(c, React(c, a, tr[0]).agent, tr[1..], x, BornBy(a, tr[0], x, before))
  }

  ghost predicate BornAs(a: Agent, x: AttemptId, b: Option<Birth>) {
    x in a.attempts ==> b == Some(Birth(a.attempts[x].createdAt, a.attempts[x].job))
  }

  /** The row of `x`, if it is still there, has the time and the job it had. */
  ghost predicate SameBirth(a: Agent, b: Agent, x: AttemptId) {
    x in b.attempts ==>
      x in a.attempts && b.attempts[x].createdAt == a.attempts[x].createdAt && b.attempts[x].job == a.attempts[x].job
  }

  lemma DirectedBirth(c: Config, a: Agent, now: int, d: Directive, x: AttemptId)
    ensures SameBirth(a, Directed(c, a, now, d).agent, x)
  {
    hide EventsAfter, Dropped, Payloads, Restamped, Adopted, Fence;
    if d.ResumeFrom? || d.ResendResult? { AdoptedIs(a, now, d.attempt, d.newLease); } else { FenceFacts(a, d.attempt); }
  }

  lemma {:induction false} ResumeBirth(c: Config, a: Agent, now: int, ds: seq<Directive>, x: AttemptId)
    ensures SameBirth(a, ApplyResume(c, a, now, ds).agent, x)
  {
    if ds != [] {
      hide Directed;
      ResumeBirth(c, a, now, ds[..|ds| - 1], x);
      DirectedBirth(c, ApplyResume(c, a, now, ds[..|ds| - 1]).agent, now, ds[|ds| - 1], x);
    }
  }

  lemma AssignBirth(c: Config, a: Agent, now: int, m: AssignMsg, x: AttemptId, b: Option<Birth>)
    requires Inv(c, a) && BornAs(a, x, b)
    ensures BornAs(Assign(c, a, now, m).agent, x, BornBy(a, InAssign(now, m), x, b))
  {
    LeaseAgreement(c, a, m.attempt);
    hide Inv, Admit, Existing;
  }

  lemma EventBirth(c: Config, a: Agent, id: RunId, ev: EngineEvent, x: AttemptId)
    requires id in a.runs
    ensures SameBirth(a, OnEvent(c, a, id, ev).agent, x)
  {
    hide OverCap, NewRow, Emitted;
  }

  lemma DoneBirth(c: Config, a: Agent, now: int, id: RunId, o: Outcome, x: AttemptId)
    requires id in a.runs
    ensures SameBirth(a, OnDone(c, a, now, id, o).agent, x)
  {
    hide ResultOf, TerminalStatusOf;
  }

  lemma HandlerBirth(c: Config, a: Agent, i: Input, x: AttemptId)
    requires !i.InEvent? && !i.InDone? && !i.InAssign? && !i.InResume?
    ensures SameBirth(a, React(c, a, i).agent, x)
  {
    hide LeaseOk, Acked, Dropped, OverCap;
  }

  lemma {:induction false} BornAlways(c: Config, a: Agent, tr: seq<Input>, x: AttemptId, b: Option<Birth>)
    requires Inv(c, a) && Possible(c, a, tr) && BornAs(a, x, b)
    ensures BornAs(After(c, a, tr), x, BornOver(c, a, tr, x, b))
    decreases |tr|
  {
    if tr != [] {
      var i := tr[0];
      InvReact(c, a, i);
      if i.InAssign? {
        AssignBirth(c, a, i.now, i.m, x, b);
      } else if i.InResume? {
        ResumeBirth(c, a, i.now, i.ds, x);
      } else if i.InEvent? {
        EventBirth(c, a, i.id, i.ev, x);
      } else if i.InDone? {
        DoneBirth(c, a, i.now, i.id, i.o, x);
      } else {
        HandlerBirth(c, a, i, x);
      }
      hide React, Inv;
      BornAlways(c, React(c, a, i).agent, tr[1..], x, BornBy(a, i, x, b));
    }
  }

  /** Over every run the row of an attempt, its events and its result name the job of its
      assignment, and the row its time: durations are counted from there. */
  lemma AttemptTellsAssignment(c: Config, tr: seq<Input>, x: AttemptId)
    requires Possible(c, EmptyAgent, tr) && x in After(c, EmptyAgent, tr).attempts
    ensures var a, born := After(c, EmptyAgent, tr), BornOver(c, EmptyAgent, tr, x, None);
            && born.Some? && a.attempts[x].createdAt == born.value.at && a.attempts[x].job == born.value.job
            && (forall i :: 0 <= i < |Log(a, x)| ==> Log(a, x)[i].payload.StreamEvent? && Log(a, x)[i].payload.job == born.value.job)
            && (x in a.results ==> a.results[x].job == a.results[x].payload.body.job == born.value.job)
  {
    InvEmpty(c);
    InvAlways(c, EmptyAgent, tr);
    BornAlways(c, EmptyAgent, tr, x, None);
    var a := After(c, EmptyAgent, tr);
    assert LocalOk(c, a, x);
    forall i | 0 <= i < |Log(a, x)| ensures Log(a, x)[i].payload.StreamEvent? && Log(a, x)[i].payload.job == a.attempts[x].job {
      assert LogRowOk(Log(a, x)[i], x, a.attempts[x].job, i + 1);
    }
  }

  /** A start time is kept exactly for the registered runs. */
  ghost predicate StartsAreOfRuns(a: Agent) {
    a.started.Keys == a.registry.Keys
  }

  lemma DirectedStarts(c: Config, a: Agent, now: int, d: Directive)
    requires Inv(c, a) && Ended(a, d) && StartsAreOfRuns(a)
    ensures StartsAreOfRuns(Directed(c, a, now, d).agent)
  {
    hide EventsAfter, Dropped, Payloads, Restamped, Adopted;
    assert LocalOk(c, a, d.attempt);
    if d.ResumeFrom? || d.ResendResult? { AdoptedIs(a, now, d.attempt, d.newLease); }
    hide Inv, LocalOk;
  }

  lemma {:induction false} ResumeStarts(c: Config, a: Agent, now: int, ds: seq<Directive>)
    requires Inv(c, a) && StartsAreOfRuns(a) && forall d :: d in ds ==> Ended(a, d)
    ensures StartsAreOfRuns(ApplyResume(c, a, now, ds).agent)
  {
    if ds != [] {
      var init, d := ds[..|ds| - 1], ds[|ds| - 1];
      assert Ended(a, d);
      InvApplyResume(c, a, now, init);
      ResumeStarts(c, a, now, init);
      hide Inv, Directed, StartsAreOfRuns;
      DirectedStarts(c, ApplyResume(c, a, now, init).agent, now, d);
    }
  }

  lemma DoneStarts(c: Config, a: Agent, now: int, id: RunId, o: Outcome)
    requires id in a.runs && StartsAreOfRuns(a)
    ensures StartsAreOfRuns(OnDone(c, a, now, id, o).agent)
  {
    hide ResultOf;
  }

  lemma HandlerStarts(c: Config, a: Agent, i: Input)
    requires Inv(c, a) && Allowed(a, i) && !i.InDone? && !i.InResume? && StartsAreOfRuns(a)
    ensures StartsAreOfRuns(React(c, a, i).agent)
  {
    if i.InRevoke? { assert LocalOk(c, a, i.x); }
    hide Inv, LeaseOk, Acked, Dropped, OverCap, Admit, Existing, NewRow;
  }

  lemma {:induction false} StartsAlways(c: Config, a: Agent, tr: seq<Input>)
    requires Inv(c, a) && Possible(c, a, tr) && StartsAreOfRuns(a)
    ensures StartsAreOfRuns(After(c, a, tr))
    decreases |tr|
  {
    if tr != [] {
      var i := tr[0];
      InvReact(c, a, i);
      if i.InResume? {
        ResumeStarts(c, a, i.now, i.ds);
      } else if i.InDone? {
        DoneStarts(c, a, i.now, i.id, i.o);
      } else {
        HandlerStarts(c, a, i);
      }
      hide React, Inv, StartsAreOfRuns;
      StartsAlways(c, React(c, a, i).agent, tr[1..]);
    }
  }

  // ---- what the engine was last asked ----

  /** Whether the last of these flow-control calls on run `id` was a pause. */
  function Held(calls: seq<EngineCall>, id: RunId, before: bool): bool {
    if calls == [] then before
    else
      var last := calls[|calls| - 1];
      if last == Pause(id) then true
      else if last == Resume(id) then false
      else Held(calls[..|calls| - 1], id, before)
  }

  lemma HeldFew(id: RunId)
    ensures forall before: bool :: Held([], id, before) == before
    ensures forall before: bool, call: EngineCall :: Held([call], id, before) ==
              if call == Pause(id) then true else if call == Resume(id) then false else before
  {
    forall before: bool, call: EngineCall
      ensures Held([call], id, before) == if call == Pause(id) then true else if call == Resume(id) then false else before
    {
      assert [call][..0] == [];
    }
  }

  lemma {:induction false} HeldConcat(s: seq<EngineCall>, t: seq<EngineCall>, id: RunId, before: bool)
    ensures Held(s + t, id, before) == Held(t, id, Held(s, id, before))
  {
    if t == [] {
      assert s + t == s;
    } else {
      HeldConcat(s, t[..|t| - 1], id, before);
      assert (s + t)[..|s + t| - 1] == s + t[..|t| - 1];
    }
  }

  ghost function CallsOver(c: Config, a: Agent, tr: seq<Input>): seq<EngineCall>
    requires Possible(c, a, tr)
    decreases |tr|
  {
    if tr == [] then [] else React(c, a, tr[0]).calls + CallsOver(c, React(c, a, tr[0]).agent, tr[1..])
  }

  /** One step moves the pause flag of a live run exactly as its calls say, and calls only
      runs there are. */
  ghost predicate FlowStep(a: Agent, o: Out, id: RunId) {
    if id in a.runs then
      id in o.agent.runs && o.agent.runs[id].live ==>
        a.runs[id].live && o.agent.runs[id].paused == Held(o.calls, id, a.runs[id].paused)
    else
      && Held(o.calls, id, false) == false
      && (id in o.agent.runs ==> a.nextId <= id && !o.agent.runs[id].paused)
  }

  lemma DirectedFlow(c: Config, a: Agent, now: int, d: Directive, id: RunId)
    ensures FlowStep(a, Directed(c, a, now, d), id) && Directed(c, a, now, d).agent.runs.Keys == a.runs.Keys
  {
    HeldFew(id);
    hide EventsAfter, Dropped, Payloads, Restamped, Adopted, Held;
    if d.ResumeFrom? || d.ResendResult? { AdoptedIs(a, now, d.attempt, d.newLease); }
  }

  lemma {:induction false} ResumeFlow(c: Config, a: Agent, now: int, ds: seq<Directive>, id: RunId)
    ensures FlowStep(a, ApplyResume(c, a, now, ds), id) && ApplyResume(c, a, now, ds).agent.runs.Keys == a.runs.Keys
  {
    if ds != [] {
      hide Directed, Held;
      var o, d := ApplyResume(c, a, now, ds[..|ds| - 1]), ds[|ds| - 1];
      ResumeFlow(c, a, now, ds[..|ds| - 1], id);
      DirectedFlow(c, o.agent, now, d, id);
      HeldConcat(o.calls, Directed(c, o.agent, now, d).calls, id, id in a.runs && a.runs[id].paused);
    } else {
      HeldFew(id);
    }
  }

  lemma EventFlow(c: Config, a: Agent, e: RunId, ev: EngineEvent, id: RunId)
    requires e in a.runs
    ensures FlowStep(a, OnEvent(c, a, e, ev), id)
  {
    HeldFew(id);
    hide OverCap, NewRow, Held;
  }

  lemma DoneFlow(c: Config, a: Agent, now: int, e: RunId, end: Outcome, id: RunId)
    requires e in a.runs
    ensures FlowStep(a, OnDone(c, a, now, e, end), id)
  {
    HeldFew(id);
    hide ResultOf, Held;
  }

  lemma AssignFlow(c: Config, a: Agent, now: int, m: AssignMsg, id: RunId)
    requires forall r :: r in a.runs ==> r < a.nextId
    ensures FlowStep(a, Assign(c, a, now, m), id)
  {
    HeldFew(id);
    hide Admit, Existing, Held;
  }

  lemma AckFlow(c: Config, a: Agent, now: int, x: AttemptId, lease: LeaseId, k: nat, id: RunId)
    ensures FlowStep(a, StreamAck(c, a, now, x, lease, k), id)
  {
    HeldFew(id);
    hide LeaseOk, Acked, OverCap, Held;
  }

  lemma OtherFlow(c: Config, a: Agent, i: Input, id: RunId)
    requires i.InResultAck? || i.InGranted? || i.InCancel? || i.InRevoke? || i.InRestart?
    ensures FlowStep(a, React(c, a, i), id)
  {
    HeldFew(id);
    hide LeaseOk, Dropped, Held;
  }

  lemma ReactFlow(c: Config, a: Agent, i: Input, id: RunId)
    requires Inv(c, a) && Allowed(a, i)
    ensures FlowStep(a, React(c, a, i), id)
  {
    forall r | r in a.runs ensures r < a.nextId { assert RunOk(a, r); }
    hide Inv, FlowStep, Assign, StreamAck, ResultAck, LeaseGranted, CancelJob, Revoke, ApplyResume, OnEvent, OnDone, Restart;
    match i
    case InAssign(now, m) => AssignFlow(c, a, now, m, id);
    case InStreamAck(now, x, lease, k) => AckFlow(c, a, now, x, lease, k, id);
    case InEvent(_, e, ev) => EventFlow(c, a, e, ev, id);
    case InDone(now, e, end) => DoneFlow(c, a, now, e, end, id);
    case InResume(now, ds) => ResumeFlow(c, a, now, ds, id);
    case _ => OtherFlow(c, a, i, id);
  }

  /** The flag of a live run is what the calls so far say; nothing was asked yet of a run
      that does not exist. */
  ghost predicate FlowTold(a: Agent, calls: seq<EngineCall>, id: RunId) {
    && (id in a.runs && a.runs[id].live ==> a.runs[id].paused == Held(calls, id, false))
    && (a.nextId <= id ==> id !in a.runs && !Held(calls, id, false))
  }

  lemma FlowThen(a: Agent, o: Out, calls: seq<EngineCall>, id: RunId)
    requires FlowTold(a, calls, id) && FlowStep(a, o, id) && a.nextId <= o.agent.nextId
    requires (id in a.runs ==> id < a.nextId) && (id in o.agent.runs ==> id < o.agent.nextId)
    requires id in o.agent.runs && id !in a.runs ==> !Held(calls, id, false)
    ensures FlowTold(o.agent, calls + o.calls, id)
  {
    HeldConcat(calls, o.calls, id, false);
    hide Held;
  }

  lemma FlowOnward(c: Config, a: Agent, i: Input, calls: seq<EngineCall>, id: RunId)
    requires Inv(c, a) && Allowed(a, i) && FlowTold(a, calls, id)
    ensures FlowTold(React(c, a, i).agent, calls + React(c, a, i).calls, id)
  {
    hide React, Inv, Held;
    var o := React(c, a, i);
    InvReact(c, a, i);
    ReactFlow(c, a, i, id);
    NextIdGrows(c, a, i);
    RunIds(c, a, id);
    RunIds(c, o.agent, id);
    FlowThen(a, o, calls, id);
  }

  lemma {:induction false} FlowAlways(c: Config, a: Agent, tr: seq<Input>, calls: seq<EngineCall>, id: RunId)
    requires Inv(c, a) && Possible(c, a, tr) && FlowTold(a, calls, id)
    ensures FlowTold(After(c, a, tr), calls + CallsOver(c, a, tr), id)
    decreases |tr|
  {
    hide React, Inv, Held, FlowTold, FlowStep;
    if tr == [] {
      assert calls + [] == calls;
    } else {
      var o := React(c, a, tr[0]);
      InvReact(c, a, tr[0]);
      FlowOnward(c, a, tr[0], calls, id);
      FlowAlways(c, o.agent, tr[1..], calls + o.calls, id);
      assert calls + CallsOver(c, a, tr) == (calls + o.calls) + CallsOver(c, o.agent, tr[1..]);
    }
  }

  lemma RunIds(c: Config, a: Agent, id: RunId)
    requires Inv(c, a)
    ensures id in a.runs ==> id < a.nextId
  {
    if id in a.runs { assert RunOk(a, id); }
  }

  lemma NextIdGrows(c: Config, a: Agent, i: Input)
    requires Inv(c, a) && Allowed(a, i)
    ensures a.nextId <= React(c, a, i).agent.nextId
  {
    if i.InResume? {
      ResumeNextId(c, a, i.now, i.ds);
    } else if !i.InRestart? {
      InvReact(c, a, i);
      hide React, Inv;
    }
  }

  lemma {:induction false} ResumeNextId(c: Config, a: Agent, now: int, ds: seq<Directive>)
    ensures a.nextId <= ApplyResume(c, a, now, ds).agent.nextId
  {
    if ds != [] {
      ResumeNextId(c, a, now, ds[..|ds| - 1]);
      DirectedNextId(c, ApplyResume(c, a, now, ds[..|ds| - 1]).agent, now, ds[|ds| - 1]);
      hide Directed;
    }
  }

  lemma DirectedNextId(c: Config, a: Agent, now: int, d: Directive)
    ensures a.nextId <= Directed(c, a, now, d).agent.nextId
  {
    hide EventsAfter, Dropped, Payloads, Restamped;
  }

  /** Over every run: the engine of a live run is held back exactly while the run counts as
      paused, that is, the last of its flow-control calls says what its flag says. */
  lemma EngineHeldIffPaused(c: Config, tr: seq<Input>, id: RunId)
    requires Possible(c, EmptyAgent, tr)
    requires id in After(c, EmptyAgent, tr).runs && After(c, EmptyAgent, tr).runs[id].live
    ensures After(c, EmptyAgent, tr).runs[id].paused <==> Held(CallsOver(c, EmptyAgent, tr), id, false)
  {
    InvEmpty(c);
    FlowAlways(c, EmptyAgent, tr, [], id);
    assert [] + CallsOver(c, EmptyAgent, tr) == CallsOver(c, EmptyAgent, tr);
  }

  /** At one of its caps: events, bytes, or the bytes of the connection. */
  predicate AtCap(c: Config, events: seq<EventRow>, x: AttemptId) {
    |RowsOf(events, x)| >= c.maxEvents || Bytes(RowsOf(events, x)) >= c.maxBytes || Bytes(events) >= c.maxConn
  }

  /** An event pauses its run exactly if the tables then stand at one of its caps, and
      leaves one that is below them as it was. */
  lemma EventPausesIff(c: Config, a: Agent, id: RunId, ev: EngineEvent)
    requires Inv(c, a) && id in a.runs && a.runs[id].live && !a.runs[id].fenced
    ensures var o := OnEvent(c, a, id, ev);
            var full := AtCap(c, o.agent.events, a.runs[id].attempt);
            && id in o.agent.runs && o.agent.runs[id].paused == (a.runs[id].paused || full)
            && o.calls == if full then [Pause(id)] else []
  {
    hide Inv, RowsOf, Bytes, NewRow;
  }

  /** An accepted ack wakes a paused run exactly if the tables it leaves stand at none of
      its caps. */
  lemma AckResumesIff(c: Config, a: Agent, now: int, x: AttemptId, lease: LeaseId, k: nat)
    requires Inv(c, a) && x in a.registry && x in a.attempts && LeaseOk(a, now, x, lease)
    ensures var o, id := StreamAck(c, a, now, x, lease, k), a.attempts[x].run;
            var woken := id in a.runs && a.runs[id].paused && !AtCap(c, o.agent.events, x);
            && id in a.runs && id in o.agent.runs && o.agent.runs[id].paused == (a.runs[id].paused && !woken)
            && o.calls == (if woken then [Resume(id)] else []) && o.sent == []
  {
    LocalOf(c, a, x);
    Basics(c, a, x);
    hide Inv, RowsOf, Bytes, LeaseOk, Acked, LocalOk;
  }

  // ---- sizes ----

  ghost predicate Sized(c: Config, rows: seq<EventRow>) {
    forall r :: r in rows ==> r.bytes == c.size(r.payload)
  }

  lemma {:induction false} LeftAreRows(rows: seq<EventRow>, x: AttemptId, k: int)
    ensures forall r :: r in Acked(rows, x, k) ==> r in rows
    ensures forall r :: r in Dropped(rows, x) ==> r in rows
  {
    if rows != [] {
      LeftAreRows(rows[..|rows| - 1], x, k);
      assert rows == rows[..|rows| - 1] + [rows[|rows| - 1]];
    }
  }

  /** A handler other than an event only removes rows. */
  ghost predicate Removes(a: Agent, b: Agent) {
    forall r :: r in b.events ==> r in a.events
  }

  lemma DirectedRemoves(c: Config, a: Agent, now: int, d: Directive)
    ensures Removes(a, Directed(c, a, now, d).agent)
  {
    hide EventsAfter, Dropped, Payloads, Restamped, Adopted, Fence;
    LeftAreRows(a.events, d.attempt, 0);
    if d.ResumeFrom? || d.ResendResult? { AdoptedIs(a, now, d.attempt, d.newLease); } else { FenceFacts(a, d.attempt); }
  }

  lemma {:induction false} ResumeRemoves(c: Config, a: Agent, now: int, ds: seq<Directive>)
    ensures Removes(a, ApplyResume(c, a, now, ds).agent)
  {
    if ds != [] {
      hide Directed;
      ResumeRemoves(c, a, now, ds[..|ds| - 1]);
      DirectedRemoves(c, ApplyResume(c, a, now, ds[..|ds| - 1]).agent, now, ds[|ds| - 1]);
    }
  }

  lemma OthersRemove(c: Config, a: Agent, i: Input)
    requires Allowed(a, i) && !i.InEvent? && !i.InResume?
    ensures Removes(a, React(c, a, i).agent)
  {
    hide LeaseOk, Acked, Dropped, OverCap, ResultOf, Admit, Existing;
    var x := if i.InAssign? || i.InDone? || i.InRestart? then 0 else i.x;
    LeftAreRows(a.events, x, if i.InStreamAck? then i.k else 0);
  }

  /** Over every run, what an event counts against the caps is the size of the message
      that was sent for it. */
  lemma {:induction false} SizedAlways(c: Config, a: Agent, tr: seq<Input>)
    requires Inv(c, a) && Possible(c, a, tr) && Sized(c, a.events)
    ensures Sized(c, After(c, a, tr).events)
    decreases |tr|
  {
    if tr != [] {
      var i := tr[0];
      InvReact(c, a, i);
      if i.InEvent? {
        if !a.runs[i.id].fenced { EventIsSaid(c, a, i.id, i.ev); }
      } else if i.InResume? {
        ResumeRemoves(c, a, i.now, i.ds);
      } else {
        OthersRemove(c, a, i);
      }
      hide Inv, OverCap, NewRow, Append, Assign, StreamAck, ResultAck, LeaseGranted, CancelJob, Revoke, ApplyResume, OnDone, Restart;
      SizedAlways(c, React(c, a, i).agent, tr[1..]);
    }
  }

  // ---- envelopes ----

  /** The results among these messages carry strictly increasing envelopes of the range. */
  ghost predicate Fresh(sent: seq<Msg>, lo: nat, hi: nat) {
    && (forall i :: 0 <= i < |sent| && sent[i].JobResult? ==> lo <= sent[i].result.envelope < hi)
    && (forall i, j :: 0 <= i < j < |sent| && sent[i].JobResult? && sent[j].JobResult? ==>
          sent[i].result.envelope < sent[j].result.envelope)
  }

  lemma FreshConcat(s: seq<Msg>, t: seq<Msg>, lo: nat, mid: nat, hi: nat)
    requires Fresh(s, lo, mid) && Fresh(t, mid, hi) && lo <= mid <= hi
    ensures Fresh(s + t, lo, hi)
  {
  }

  lemma DirectedFresh(c: Config, a: Agent, now: int, d: Directive)
    requires Inv(c, a)
    ensures Fresh(Directed(c, a, now, d).sent, a.nextId, Directed(c, a, now, d).agent.nextId)
  {
    hide Inv, Directed;
    match d
    case ResumeFrom(x, k, lease) => ResumeIsSaid(c, a, now, x, k, lease); hide ResumePoint, Log;
    case ResendResult(x, lease) => ResendFresh(c, a, now, x, lease);
    case AckPending(x) => DropsSaySilently(c, a, now, d);
    case Abandon(x) => DropsSaySilently(c, a, now, d);
  }

  lemma ResendFresh(c: Config, a: Agent, now: int, x: AttemptId, lease: Option<LeaseId>)
    ensures var o := Directed(c, a, now, ResendResult(x, lease)); Fresh(o.sent, a.nextId, o.agent.nextId)
  {
    hide Adopted, Fresh;
    AdoptedKeeps(a, now, x, lease);
    FreshOne(a.nextId);
  }

  lemma FreshOne(n: nat)
    ensures Fresh([], n, n) && forall m: Msg :: m.JobResult? && m.result.envelope == n ==> Fresh([m], n, n + 1)
  {
  }

  lemma DropsSaySilently(c: Config, a: Agent, now: int, d: Directive)
    requires d.AckPending? || d.Abandon?
    ensures Directed(c, a, now, d).sent == []
  {
    hide DeleteAttempt, Fence;
  }

  lemma {:induction false} ResumeFresh(c: Config, a: Agent, now: int, ds: seq<Directive>)
    requires Inv(c, a) && forall d :: d in ds ==> Ended(a, d)
    ensures Fresh(ApplyResume(c, a, now, ds).sent, a.nextId, ApplyResume(c, a, now, ds).agent.nextId)
    ensures a.nextId <= ApplyResume(c, a, now, ds).agent.nextId
  {
    if ds != [] {
      var init, d := ds[..|ds| - 1], ds[|ds| - 1];
      var o := ApplyResume(c, a, now, init);
      InvApplyResume(c, a, now, init);
      ResumeFresh(c, a, now, init);
      hide Inv, Directed, Fresh;
      DirectedFresh(c, o.agent, now, d);
      DirectedNextId(c, o.agent, now, d);
      FreshConcat(o.sent, Directed(c, o.agent, now, d).sent, a.nextId, o.agent.nextId, Directed(c, o.agent, now, d).agent.nextId);
    }
  }

  lemma ReactFresh(c: Config, a: Agent, i: Input)
    requires Inv(c, a) && Allowed(a, i)
    ensures Fresh(React(c, a, i).sent, a.nextId, React(c, a, i).agent.nextId)
  {
    hide LeaseOk, Acked, Dropped, OverCap, Admit, Existing, ResultOf, Append;
    if i.InResume? {
      ResumeFresh(c, a, i.now, i.ds);
    } else if i.InDone? {
      if !a.runs[i.id].fenced { EndIsSaid(c, a, i.now, i.id, i.o); }
    } else {
      hide Inv;
    }
  }

  ghost function SentOver(c: Config, a: Agent, tr: seq<Input>): seq<Msg>
    requires Possible(c, a, tr)
    decreases |tr|
  {
    if tr == [] then [] else React(c, a, tr[0]).sent + SentOver(c, React(c, a, tr[0]).agent, tr[1..])
  }

  /** Over every run, each result that is sent or sent again has an envelope of its own. */
  lemma {:induction false} EnvelopesAreFresh(c: Config, a: Agent, tr: seq<Input>)
    requires Inv(c, a) && Possible(c, a, tr)
    ensures Fresh(SentOver(c, a, tr), a.nextId, After(c, a, tr).nextId) && a.nextId <= After(c, a, tr).nextId
    decreases |tr|
  {
    if tr != [] {
      var o := React(c, a, tr[0]);
      InvReact(c, a, tr[0]);
      ReactFresh(c, a, tr[0]);
      NextIdGrows(c, a, tr[0]);
      hide React, Inv, Fresh;
      EnvelopesAreFresh(c, o.agent, tr[1..]);
      FreshConcat(o.sent, SentOver(c, o.agent, tr[1..]), a.nextId, o.agent.nextId, After(c, a, tr).nextId);
    } else {
      assert Fresh([], a.nextId, a.nextId);
    }
  }
}
