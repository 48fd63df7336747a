/** What the relay is told: the answer to an assignment, the status of a run, and the
    outcome its engine ended with. */
module JobReports {
  import opened Options
  import opened JobTypes
  import opened EventTable
  import opened JobProtocol
  import opened JobInvariant
  import opened JobRuns
  import opened JobLeases
  import opened JobAssignment
  import opened JobResults

  // ---- the answer to an assignment ----

  /** A new attempt gets one refusal and no run, with the first reason that applies; or a
      run of its own, whose id was never used before, a start of the engine, and then
      the acceptance before the first status. */
  lemma NewAttemptIsAnswered(c: Config, a: Agent, now: int, m: AssignMsg)
    requires Inv(c, a) && m.attempt !in a.attempts
    ensures var o, full := Assign(c, a, now, m), |a.registry| >= c.maxConcurrent;
            && (full ==> o.sent == [JobReject(m.job, m.attempt, m.lease, Busy)])
            && (!full && m.rejection.Some? ==> o.sent == [JobReject(m.job, m.attempt, m.lease, m.rejection.value)])
            && (!full && m.rejection.None? && m.gated && !c.gateAvailable ==>
                  o.sent == [JobReject(m.job, m.attempt, m.lease, PolicyViolation)])
            && (if m.attempt in o.agent.attempts then
                  var id := o.agent.attempts[m.attempt].run;
                  && o.calls == [Start(id)] && id !in a.runs && id !in a.emitted
                  && (forall x :: x in a.attempts ==> a.attempts[x].run != id)
                  && o.sent == [JobAccept(m.job, m.attempt, m.lease, id), JobStatus(m.job, m.attempt, m.lease, Running)]
                else o.agent == a && o.calls == [] && |o.sent| == 1 && o.sent[0].JobReject?)
  {
    LeaseAgreement(c, a, m.attempt);
    AdmittedIff(c, a, now, m);
    assert LocalOk(c, a, m.attempt);
    forall x | x in a.attempts ensures a.attempts[x].run < a.nextId { assert LocalOk(c, a, x); }
    assert a.nextId !in a.runs;
  }

  // ---- cancellation ----

  /** A cancellation of a live run under an accepted lease reaches the engine with its
      grace period and is announced under the current lease; any other does nothing. */
  lemma CancelReachesEngineIff(c: Config, a: Agent, now: int, x: AttemptId, lease: LeaseId, grace: nat)
    requires Inv(c, a)
    ensures var o := CancelJob(a, now, x, lease, grace);
            if x in a.registry && LeaseOk(a, now, x, lease) then
              && x in a.attempts && x in o.agent.attempts && o.agent.attempts[x].status == Cancelling
              && o.calls == [Cancel(a.attempts[x].run, grace)]
              && o.sent == [JobStatus(a.attempts[x].job, x, a.attempts[x].lease, Cancelling)]
            else o == Quiet(a)
  {
    LeaseAgreement(c, a, x);
    assert LocalOk(c, a, x);
  }

  // ---- the status of a run ----

  /** The live record and the durable row tell the same status and the same start. */
  ghost predicate StatusOk(a: Agent, x: AttemptId) {
    x in a.registry && a.registry[x] in a.runs && x in a.attempts && x in a.started ==>
      && a.runs[a.registry[x]].status == a.attempts[x].status
      && a.started[x] == a.attempts[x].createdAt
      && (a.attempts[x].status == Running || a.attempts[x].status == Cancelling)
  }

  lemma StatusFrame(c: Config, a: Agent, b: Agent, y: AttemptId, x: AttemptId)
    requires Inv(c, a) && Elsewhere(a, b, y) && x != y && StatusOk(a, x)
    ensures StatusOk(b, x)
  {
    assert AgreeAt(a, b, x) && LocalOk(c, a, x);
    if x in a.registry { assert RunAgrees(a, b, a.registry[x], y); }
  }

  lemma StatusDirected(c: Config, a: Agent, now: int, d: Directive, x: AttemptId)
    requires Inv(c, a) && Ended(a, d) && StatusOk(a, x)
    ensures StatusOk(Directed(c, a, now, d).agent, x)
  {
    hide Directed, StatusOk;
    if d.attempt != x {
      InvDirected(c, a, now, d);
      StatusFrame(c, a, Directed(c, a, now, d).agent, d.attempt, x);
    } else {
      StatusHere(c, a, now, d);
    }
  }

  lemma StatusHere(c: Config, a: Agent, now: int, d: Directive)
    requires Ended(a, d) && StatusOk(a, d.attempt)
    ensures StatusOk(Directed(c, a, now, d).agent, d.attempt)
  {
    hide EventsAfter, Dropped, Payloads, Restamped, Adopted, Fence;
    AdoptedIs(a, now, d.attempt, if d.ResumeFrom? || d.ResendResult? then d.newLease else None);
    FenceFacts(a, d.attempt);
  }

  lemma {:induction false} StatusResume(c: Config, a: Agent, now: int, ds: seq<Directive>, x: AttemptId)
    requires Inv(c, a) && StatusOk(a, x) && forall d :: d in ds ==> Ended(a, d)
    ensures StatusOk(ApplyResume(c, a, now, ds).agent, x)
  {
    if ds != [] {
      var init, d := ds[..|ds| - 1], ds[|ds| - 1];
      assert Ended(a, d);
      InvApplyResume(c, a, now, init);
      StatusResume(c, a, now, init, x);
      hide Inv, Directed, StatusOk;
      StatusDirected(c, ApplyResume(c, a, now, init).agent, now, d, x);
    }
  }

  lemma StatusReact(c: Config, a: Agent, i: Input, x: AttemptId)
    requires Inv(c, a) && Allowed(a, i) && StatusOk(a, x)
    ensures StatusOk(React(c, a, i).agent, x)
  {
    if i.InResume? {
      StatusResume(c, a, i.now, i.ds, x);
    } else if i.InRestart? {
    } else if Subject(a, i) != x {
      InvReact(c, a, i);
      StatusFrame(c, a, React(c, a, i).agent, Subject(a, i), x);
    } else {
      StatusAt(c, a, i);
    }
  }

  lemma StatusAt(c: Config, a: Agent, i: Input)
    requires Inv(c, a) && Allowed(a, i) && !i.InResume? && !i.InRestart? && StatusOk(a, Subject(a, i))
    ensures StatusOk(React(c, a, i).agent, Subject(a, i))
  {
    hide Inv, LocalOk, Window, RowsOf, LeaseOk, Dropped, OnEvent, OnDone, Assign, StreamAck;
    LocalOf(c, a, Subject(a, i));
    Basics(c, a, Subject(a, i));
    match i
    case InEvent(_, id, ev) => StatusAtEvent(c, a, id, ev);
    case InDone(now, id, o) => StatusAtDone(c, a, now, id, o);
    case InAssign(now, m) => StatusAtAssign(c, a, now, m);
    case InStreamAck(now, x, lease, k) => AckIs(c, a, now, x, lease, k);
    case _ =>
  }

  lemma StatusAtEvent(c: Config, a: Agent, id: RunId, ev: EngineEvent)
    requires id in a.runs && StatusOk(a, a.runs[id].attempt)
    ensures StatusOk(OnEvent(c, a, id, ev).agent, a.runs[id].attempt)
  {
    hide OverCap;
  }

  /** The run that ends is the registered one, and leaves the registry. */
  lemma StatusAtDone(c: Config, a: Agent, now: int, id: RunId, o: Outcome)
    requires Inv(c, a) && id in a.runs && a.runs[id].live && StatusOk(a, a.runs[id].attempt)
    ensures StatusOk(OnDone(c, a, now, id, o).agent, a.runs[id].attempt)
  {
    hide ResultOf, TerminalStatusOf, FinalStatusOf;
    assert RunOk(a, id);
    hide Inv;
  }

  lemma StatusAtAssign(c: Config, a: Agent, now: int, m: AssignMsg)
    requires StatusOk(a, m.attempt)
    ensures StatusOk(Assign(c, a, now, m).agent, m.attempt)
  {
    hide Admit, Existing;
  }

  // ---- the outcome ----

  /** How a run of the engine ended, and how long after its assignment. */
  datatype Story = Story(outcome: Outcome, duration: int)

  ghost predicate Tells(body: ResultBody, status: Status, s: Story) {
    && body.duration == s.duration
    && match s.outcome
       case Success(code) => status == Completed && body.finalStatus == FinalSuccess && body.exitCode == code && body.errorKind == None
       case Error(code, kind) => status == Failed && body.finalStatus == FinalError && body.exitCode == code && body.errorKind == kind
       case CancelledOutcome => status == Cancelled && body.finalStatus == FinalCancelled && body.exitCode == None && body.errorKind == None
  }

  /** The story after one input: the engine of a run that was not revoked tells a new one. */
  ghost function Heard(a: Agent, i: Input, x: AttemptId, before: Option<Story>): Option<Story>
    requires Allowed(a, i)
  {
    if i.InDone? && a.runs[i.id].attempt == x && !a.runs[i.id].fenced && x in a.attempts
    then Some(Story(i.o, i.now - a.attempts[x].createdAt)) else before
  }

  ghost function HeardOver(c: Config, a: Agent, tr: seq<Input>, x: AttemptId, before: Option<Story>): Option<Story>
    requires Possible(c, a, tr)
    decreases |tr|
  {
    if tr == [] then before
    else HeardOver(c, React(c, a, tr[0]).agent, tr[1..], x, Heard(a, tr[0], x, before))
  }

  /** A pending result tells the story, and its recorded size is that of its message. */
  ghost predicate ToldAs(c: Config, a: Agent, x: AttemptId, s: Option<Story>) {
    x in a.results ==>
      && x in a.attempts && s.Some?
      && Tells(a.results[x].payload.body, a.attempts[x].status, s.value)
      && a.results[x].size == c.size(JobResult(a.results[x].payload))
  }

  lemma ToldDirected(c: Config, a: Agent, now: int, d: Directive, x: AttemptId, s: Option<Story>)
    requires Inv(c, a) && Ended(a, d) && ToldAs(c, a, x, s)
    ensures ToldAs(c, Directed(c, a, now, d).agent, x, s)
  {
    if d.attempt != x {
      InvDirected(c, a, now, d);
      assert AgreeAt(a, Directed(c, a, now, d).agent, x);
      hide Directed, Inv, Elsewhere;
    } else {
      ToldHere(c, a, now, d, s);
    }
  }

  lemma ToldHere(c: Config, a: Agent, now: int, d: Directive, s: Option<Story>)
    requires ToldAs(c, a, d.attempt, s)
    ensures ToldAs(c, Directed(c, a, now, d).agent, d.attempt, s)
  {
    hide EventsAfter, Dropped, Payloads, Adopted, Fence;
    AdoptedIs(a, now, d.attempt, if d.ResumeFrom? || d.ResendResult? then d.newLease else None);
    FenceFacts(a, d.attempt);
  }

  lemma {:induction false} ToldResume(c: Config, a: Agent, now: int, ds: seq<Directive>, x: AttemptId, s: Option<Story>)
    requires Inv(c, a) && ToldAs(c, a, x, s) && forall d :: d in ds ==> Ended(a, d)
    ensures ToldAs(c, ApplyResume(c, a, now, ds).agent, x, s)
  {
    if ds != [] {
      var init, d := ds[..|ds| - 1], ds[|ds| - 1];
      assert Ended(a, d);
      InvApplyResume(c, a, now, init);
      ToldResume(c, a, now, init, x, s);
      hide Inv, Directed, ToldAs;
      ToldDirected(c, ApplyResume(c, a, now, init).agent, now, d, x, s);
    }
  }

  lemma ToldReact(c: Config, a: Agent, i: Input, x: AttemptId, s: Option<Story>)
    requires Inv(c, a) && Allowed(a, i) && StatusOk(a, x) && ToldAs(c, a, x, s)
    ensures ToldAs(c, React(c, a, i).agent, x, Heard(a, i, x, s))
  {
    if i.InResume? {
      ToldResume(c, a, i.now, i.ds, x, s);
    } else if i.InRestart? {
    } else if Subject(a, i) != x {
      InvReact(c, a, i);
      assert AgreeAt(a, React(c, a, i).agent, x);
      hide React, Inv, Elsewhere;
    } else if i.InDone? {
      ToldDone(c, a, i, s);
    } else {
      ToldKept(c, a, i, s);
    }
  }

  /** Nothing but the end of a run touches a stored result; it may only be collected. */
  lemma ToldKept(c: Config, a: Agent, i: Input, s: Option<Story>)
    requires Inv(c, a) && Allowed(a, i) && !i.InResume? && !i.InRestart? && !i.InDone? && ToldAs(c, a, Subject(a, i), s)
    ensures ToldAs(c, React(c, a, i).agent, Subject(a, i), s)
  {
    var x := Subject(a, i);
    SendsNoResult(c, a, i, x);
    if x in a.results {
      TerminalKept(c, a, i);
      hide React, Inv, Tells;
    }
  }

  /** The row of a pending result changes only its lease while the result is there. */
  lemma TerminalKept(c: Config, a: Agent, i: Input)
    requires Inv(c, a) && Allowed(a, i) && !i.InResume? && !i.InRestart? && !i.InDone? && Subject(a, i) in a.results
    ensures var x, b := Subject(a, i), React(c, a, i).agent;
            x in b.results ==> x in a.attempts && x in b.attempts && b.attempts[x] == a.attempts[x]
  {
    var x := Subject(a, i);
    assert x in a.attempts && x !in a.registry by { assert LocalOk(c, a, x); }
    hide Assign, StreamAck, ResultAck;
    match i
    case InAssign(now, m) => DuplicateAssign(c, a, now, m);
    case InStreamAck(now, _, lease, k) => AckKeepsRows(c, a, now, x, lease, k);
    case InResultAck(now, _, lease, digest) => CollectionIsWhole(a, now, x, lease, digest);
    case InEvent(_, id, _) => assert a.runs[id].fenced by { assert RunOk(a, id); }
    case _ =>
  }

  lemma AckKeepsRows(c: Config, a: Agent, now: int, x: AttemptId, lease: LeaseId, k: nat)
    ensures StreamAck(c, a, now, x, lease, k).agent.attempts == a.attempts
  {
    hide LeaseOk, Acked, OverCap;
  }

  lemma CollectionIsWhole(a: Agent, now: int, x: AttemptId, lease: LeaseId, digest: Digest)
    ensures var b := ResultAck(a, now, x, lease, digest).agent; x in b.results ==> b == a
  {
    hide LeaseOk, Dropped;
  }

  lemma ToldDone(c: Config, a: Agent, i: Input, s: Option<Story>)
    requires Inv(c, a) && Allowed(a, i) && i.InDone?
    requires StatusOk(a, Subject(a, i)) && ToldAs(c, a, Subject(a, i), s)
    ensures ToldAs(c, React(c, a, i).agent, Subject(a, i), Heard(a, i, Subject(a, i), s))
  {
    assert LocalOk(c, a, Subject(a, i)) && RunOk(a, i.id);
    hide Window, RowsOf, LogOk;
  }

  lemma {:induction false} ToldAlways(c: Config, a: Agent, tr: seq<Input>, x: AttemptId, s: Option<Story>)
    requires Inv(c, a) && Possible(c, a, tr) && StatusOk(a, x) && ToldAs(c, a, x, s)
    ensures ToldAs(c, After(c, a, tr), x, HeardOver(c, a, tr, x, s)) && StatusOk(After(c, a, tr), x)
    decreases |tr|
  {
    hide React, Inv, ToldAs, StatusOk, Heard;
    if tr != [] {
      InvReact(c, a, tr[0]);
      StatusReact(c, a, tr[0], x);
      ToldReact(c, a, tr[0], x, s);
      ToldAlways(c, React(c, a, tr[0]).agent, tr[1..], x, Heard(a, tr[0], x, s));
    }
  }

  /** Over every run from an empty agent, and however often it was re-stamped: a pending
      result, and the durable status beside it, tell how the last engine run of its
      attempt ended and how long after the assignment. */
  lemma ResultTellsOutcome(c: Config, tr: seq<Input>, x: AttemptId)
    requires Possible(c, EmptyAgent, tr) && x in After(c, EmptyAgent, tr).results
    ensures var a, s := After(c, EmptyAgent, tr), HeardOver(c, EmptyAgent, tr, x, None);
            && x in a.attempts && s.Some?
            && Tells(a.results[x].payload.body, a.attempts[x].status, s.value)
            && a.results[x].size == c.size(JobResult(a.results[x].payload))
  {
    InvEmpty(c);
    ToldAlways(c, EmptyAgent, tr, x, None);
  }

  /** And a live run is reported as running or cancelling, by the registry and the
      durable row alike. */
  lemma LiveStatusAgrees(c: Config, tr: seq<Input>, x: AttemptId)
    requires Possible(c, EmptyAgent, tr) && x in After(c, EmptyAgent, tr).registry
    ensures var a := After(c, EmptyAgent, tr);
            && x in ActiveJobs(a) && a.registry[x] in a.runs
            && a.runs[a.registry[x]].status == a.attempts[x].status
            && (a.attempts[x].status == Running || a.attempts[x].status == Cancelling)
  {
    InvEmpty(c);
    InvAlways(c, EmptyAgent, tr);
    ToldAlways(c, EmptyAgent, tr, x, None);
    assert LocalOk(c, After(c, EmptyAgent, tr), x);
  }
}
