/** Leases: the live and the durable lease agree, everything a run says carries the
    lease current when it says it, and a lease once refused stays refused. */
module JobLeases {
  import opened Options
  import opened JobTypes
  import opened EventTable
  import opened JobProtocol
  import opened JobInvariant
  import opened JobRuns

  // ---- agreement ----

  /** In every reachable state the registry and the store name the same lease and the
      same run for an attempt, so it does not matter which of them is asked. */
  lemma LeaseAgreement(c: Config, a: Agent, x: AttemptId)
    requires Inv(c, a)
    ensures Existing(a, x) == if x in a.attempts then Some((a.attempts[x].lease, a.attempts[x].run)) else None
    ensures x in a.registry ==> Lookup(a, x).Some? && x in a.attempts && Lookup(a, x).value.lease == a.attempts[x].lease
  {
    assert LocalOk(c, a, x);
  }

  // ---- what is sent ----

  /** Messages a run produces, as opposed to answers to a `job.assign`. */
  predicate FromRun(m: Msg) {
    m.StreamEvent? || m.JobStatus? || m.JobResult?
  }

  ghost predicate CarriesCurrent(a: Agent, sent: seq<Msg>) {
    forall m :: m in sent && FromRun(m) ==> AttemptOf(m) in a.attempts && LeaseOf(m) == a.attempts[AttemptOf(m)].lease
  }

  /** Every message of every handler except a resume list carries the lease that is
      current, durably, when the handler returns. */
  lemma SentUnderCurrentLease(c: Config, a: Agent, i: Input)
    requires Inv(c, a) && Allowed(a, i) && !i.InResume?
    ensures CarriesCurrent(React(c, a, i).agent, React(c, a, i).sent)
  {
    hide Inv, OnEvent, OnDone, CancelJob, Admit, Existing;
    match i
    case InEvent(_, id, ev) => EventUnderCurrentLease(c, a, id, ev);
    case InDone(now, id, o) => DoneUnderCurrentLease(c, a, now, id, o);
    case InCancel(now, x, lease, grace) => CancelUnderCurrentLease(c, a, now, x, lease, grace);
    case InAssign(_, _) =>
    case _ => SendsNothing(c, a, i);
  }

  lemma EventUnderCurrentLease(c: Config, a: Agent, id: RunId, ev: EngineEvent)
    requires Inv(c, a) && id in a.runs && a.runs[id].live
    ensures CarriesCurrent(OnEvent(c, a, id, ev).agent, OnEvent(c, a, id, ev).sent)
  {
    hide OverCap;
    assert RunOk(a, id);
    LeaseAgreement(c, a, a.runs[id].attempt);
    hide Inv;
  }

  lemma DoneUnderCurrentLease(c: Config, a: Agent, now: int, id: RunId, o: Outcome)
    requires Inv(c, a) && id in a.runs && a.runs[id].live
    ensures CarriesCurrent(OnDone(c, a, now, id, o).agent, OnDone(c, a, now, id, o).sent)
  {
    hide TerminalStatusOf, FinalStatusOf;
    assert RunOk(a, id);
    LeaseAgreement(c, a, a.runs[id].attempt);
    hide Inv;
  }

  lemma CancelUnderCurrentLease(c: Config, a: Agent, now: int, x: AttemptId, lease: LeaseId, grace: nat)
    requires Inv(c, a)
    ensures CarriesCurrent(CancelJob(a, now, x, lease, grace).agent, CancelJob(a, now, x, lease, grace).sent)
  {
    hide LeaseOk;
    LeaseAgreement(c, a, x);
    assert x in a.registry ==> Lookup(a, x).value.attempt == x by { assert LocalOk(c, a, x); }
    hide Inv;
  }

  lemma SendsNothing(c: Config, a: Agent, i: Input)
    requires i.InStreamAck? || i.InResultAck? || i.InGranted? || i.InRevoke? || i.InRestart?
    ensures React(c, a, i).sent == []
  {
    hide LeaseOk, Acked, Dropped, OverCap, Fence;
  }

  /** A directive that names a lease re-stamps everything it sends with it, and that
      lease is the current one when it has been applied. */
  lemma ResentUnderCurrentLease(c: Config, a: Agent, now: int, d: Directive)
    requires Inv(c, a) && (d.ResumeFrom? || d.ResendResult?) && d.newLease.Some?
    ensures var o := Directed(c, a, now, d);
            && CarriesCurrent(o.agent, o.sent)
            && (forall m :: m in o.sent ==> AttemptOf(m) == d.attempt && LeaseOf(m) == d.newLease.value)
  {
    var x, lease := d.attempt, d.newLease.value;
    if d.ResumeFrom? { ResumeMessagesLease(c, a, now, d); } else { ResendMessageLease(c, a, now, d); }
    AdoptedCurrent(a, now, x, lease);
    assert Directed(c, a, now, d).agent.attempts == Adopted(a, now, x, d.newLease).attempts;
    hide Directed, Adopted, Inv;
  }

  lemma ResumeMessagesLease(c: Config, a: Agent, now: int, d: Directive)
    requires Inv(c, a) && d.ResumeFrom? && d.newLease.Some?
    ensures forall m :: m in Directed(c, a, now, d).sent ==>
              AttemptOf(m) == d.attempt && LeaseOf(m) == d.newLease.value
              && d.attempt in Adopted(a, now, d.attempt, d.newLease).attempts
  {
    InvAdopted(c, a, now, d.attempt, d.newLease);
    ResumedMessages(c, Adopted(a, now, d.attempt, d.newLease), d.attempt, d.after, d.newLease);
    hide Inv, Adopted, EventsAfter;
  }

  lemma ResendMessageLease(c: Config, a: Agent, now: int, d: Directive)
    requires Inv(c, a) && d.ResendResult? && d.newLease.Some?
    ensures forall m :: m in Directed(c, a, now, d).sent ==>
              AttemptOf(m) == d.attempt && LeaseOf(m) == d.newLease.value
              && d.attempt in Adopted(a, now, d.attempt, d.newLease).attempts
  {
    InvAdopted(c, a, now, d.attempt, d.newLease);
    assert LocalOk(c, Adopted(a, now, d.attempt, d.newLease), d.attempt);
    hide Inv, Adopted;
  }

  lemma ResumedMessages(c: Config, a: Agent, x: AttemptId, k: nat, lease: Option<LeaseId>)
    requires Inv(c, a)
    ensures forall m :: m in Payloads(EventsAfter(a.events, x, k), lease) ==>
              m.StreamEvent? && m.attempt == x && x in a.attempts && (lease.Some? ==> m.lease == lease.value)
  {
    assert LocalOk(c, a, x);
    if x in a.attempts {
      ResumedRows(c, a, x, k);
      hide LocalOk, Inv, EventsAfter;
      PayloadsOfLog(Log(a, x), ResumePoint(a, x, k), x, a.attempts[x].job, lease);
    } else {
      NothingToResume(c, a, x, k);
    }
  }

  lemma PayloadsOfLog(log: seq<EventRow>, from: int, x: AttemptId, job: JobId, lease: Option<LeaseId>)
    requires 0 <= from <= |log| && LogOk(log, x, job)
    ensures forall m :: m in Payloads(log[from..], lease) ==>
              m.StreamEvent? && m.attempt == x && (lease.Some? ==> m.lease == lease.value)
  {
    forall i | 0 <= i < |log| - from
      ensures log[from..][i].payload.StreamEvent? && log[from..][i].payload.attempt == x
    {
      assert LogRowOk(log[from + i], x, job, from + i + 1);
    }
  }

  lemma AdoptedCurrent(a: Agent, now: int, x: AttemptId, lease: LeaseId)
    ensures var b := Adopted(a, now, x, Some(lease));
            && (x in b.attempts ==> b.attempts[x].lease == lease)
            && b.attempts.Keys == a.attempts.Keys
  {
    hide Adopted;
    AdoptedIs(a, now, x, Some(lease));
  }

  /** Adopting a lease touches nothing else of a row, and neither tables nor registry. */
  lemma AdoptedKeeps(a: Agent, now: int, x: AttemptId, lease: Option<LeaseId>)
    ensures var b := Adopted(a, now, x, lease);
            && b.attempts.Keys == a.attempts.Keys
            && (forall y :: y in a.attempts ==> b.attempts[y] == a.attempts[y].(lease := b.attempts[y].lease))
            && b.events == a.events && b.results == a.results && b.registry == a.registry
            && b.emitted == a.emitted && b.nextId == a.nextId
  {
    if lease.Some? { SetLeaseKeeps(a, x, lease.value); }
    hide SetLease;
  }

  lemma SetLeaseKeeps(a: Agent, x: AttemptId, lease: LeaseId)
    ensures var b := SetLease(a, x, lease);
            && b == a.(attempts := b.attempts)
            && b.attempts.Keys == a.attempts.Keys
            && (forall y :: y in a.attempts ==> b.attempts[y] == a.attempts[y].(lease := b.attempts[y].lease))
  {
  }

  lemma NothingToResume(c: Config, a: Agent, x: AttemptId, k: nat)
    requires LocalOk(c, a, x) && x !in a.attempts
    ensures EventsAfter(a.events, x, k) == []
  {
    RowsOfAcked(a.events, x, k);
  }

  /** Where `resume_from k` starts: at `k`, but not before the last acknowledgement and
      not beyond what was emitted. */
  ghost function ResumePoint(a: Agent, x: AttemptId, k: nat): int
    requires x in a.attempts
  {
    if k <= AckedCount(a, x) then AckedCount(a, x) else if k >= |Log(a, x)| then |Log(a, x)| else k
  }

  lemma WindowAfter(log: seq<EventRow>, rows: seq<EventRow>, x: AttemptId, job: JobId, k: int, from: int)
    requires Window(log, rows) && LogOk(log, x, job)
    requires from == if k <= |log| - |rows| then |log| - |rows| else if k >= |log| then |log| else k
    ensures 0 <= from <= |log| && SortBySeq(Acked(rows, x, k)) == log[from..]
    ensures Contiguous(log[from..], from + 1)
  {
    WindowAcked(log, rows, x, job, k);
    hide Acked, SortBySeq;
    forall i | 0 <= i < |log[from..]| ensures log[from..][i].seqNo == from + 1 + i {
      assert LogRowOk(log[from + i], x, job, from + i + 1);
    }
    SortContiguous(log[from..], from + 1);
  }

  /** `resume_from k` resends the stored rows above `k`, in order and without a gap. */
  lemma ResumedRows(c: Config, a: Agent, x: AttemptId, k: nat)
    requires Inv(c, a) && x in a.attempts
    ensures 0 <= ResumePoint(a, x, k) <= |Log(a, x)|
    ensures EventsAfter(a.events, x, k) == Log(a, x)[ResumePoint(a, x, k)..]
    ensures Contiguous(EventsAfter(a.events, x, k), ResumePoint(a, x, k) + 1)
    ensures LogOk(Log(a, x), x, a.attempts[x].job)
  {
    assert LocalOk(c, a, x);
    RowsOfAcked(a.events, x, k);
    assert LogOk(Log(a, x), x, a.attempts[x].job) && Window(Log(a, x), RowsOf(a.events, x));
    hide LocalOk, Inv, RowsOf, Acked, SortBySeq;
    WindowAfter(Log(a, x), RowsOf(a.events, x), x, a.attempts[x].job, k, ResumePoint(a, x, k));
  }

  // ---- retirement ----

  predicate DirectiveGrants(d: Directive, x: AttemptId, lease: LeaseId) {
    d.attempt == x && (d.ResumeFrom? || d.ResendResult?) && d.newLease == Some(lease)
  }

  /** The inputs that give `lease` to attempt `x`. */
  ghost predicate Grants(i: Input, x: AttemptId, lease: LeaseId) {
    match i
    case InAssign(_, m) => m.attempt == x && m.lease == lease
    case InGranted(_, y, l) => y == x && l == lease
    case InResume(_, ds) => exists d :: d in ds && DirectiveGrants(d, x, lease)
    case _ => false
  }

  lemma LeaseFrame(c: Config, a: Agent, b: Agent, y: AttemptId, now: int, x: AttemptId, lease: LeaseId)
    requires Inv(c, a) && Elsewhere(a, b, y) && x != y
    ensures LeaseOk(b, now, x, lease) == LeaseOk(a, now, x, lease)
  {
    assert AgreeAt(a, b, x) && LocalOk(c, a, x);
    if x in a.registry { assert RunAgrees(a, b, a.registry[x], y); }
  }

  lemma RefusedDirected(c: Config, a: Agent, now: int, d: Directive, now2: int, x: AttemptId, lease: LeaseId)
    requires Inv(c, a) && now <= now2 && Ended(a, d)
    requires !LeaseOk(a, now, x, lease) && !DirectiveGrants(d, x, lease)
    ensures !LeaseOk(Directed(c, a, now, d).agent, now2, x, lease)
  {
    if d.attempt != x {
      InvDirected(c, a, now, d);
      LeaseFrame(c, a, Directed(c, a, now, d).agent, d.attempt, now2, x, lease);
    } else {
      LeaseAgreement(c, a, x);
      hide Inv, EventsAfter, Dropped, Payloads, Restamped;
      if d.ResumeFrom? || d.ResendResult? {
        RefusedAdopted(c, a, now, x, d.newLease, now2, lease);
        hide Adopted;
      }
    }
  }

  lemma RefusedAdopted(
      c: Config, a: Agent, now: int, x: AttemptId, adopted: Option<LeaseId>, now2: int, lease: LeaseId)
    requires Inv(c, a) && now <= now2
    requires !LeaseOk(a, now, x, lease) && adopted != Some(lease)
    ensures !LeaseOk(Adopted(a, now, x, adopted), now2, x, lease)
  {
    LeaseAgreement(c, a, x);
    hide Inv;
  }

  lemma {:induction false} RefusedApplyResume(
      c: Config, a: Agent, now: int, ds: seq<Directive>, now2: int, x: AttemptId, lease: LeaseId)
    requires Inv(c, a) && now <= now2 && forall d :: d in ds ==> Ended(a, d)
    requires !LeaseOk(a, now, x, lease) && forall d :: d in ds ==> !DirectiveGrants(d, x, lease)
    ensures !LeaseOk(ApplyResume(c, a, now, ds).agent, now2, x, lease)
  {
    hide LeaseOk, Inv, Directed;
    if ds == [] {
      RefusedLater(a, now, now2, x, lease);
    } else {
      var init, d := ds[..|ds| - 1], ds[|ds| - 1];
      InvApplyResume(c, a, now, init);
      assert Ended(a, d);
      RefusedApplyResume(c, a, now, init, now, x, lease);
      RefusedDirected(c, ApplyResume(c, a, now, init).agent, now, d, now2, x, lease);
    }
  }

  lemma RefusedLater(a: Agent, now: int, now2: int, x: AttemptId, lease: LeaseId)
    requires now <= now2 && !LeaseOk(a, now, x, lease)
    ensures !LeaseOk(a, now2, x, lease)
  {
  }

  /** One step with a monotone clock: a lease that was refused is still refused,
      unless the step itself gives it to the attempt. */
  lemma RefusedStaysRefused(c: Config, a: Agent, i: Input, now2: int, x: AttemptId, lease: LeaseId)
    requires Inv(c, a) && Allowed(a, i) && i.now <= now2
    requires !LeaseOk(a, i.now, x, lease) && !Grants(i, x, lease)
    ensures !LeaseOk(React(c, a, i).agent, now2, x, lease)
  {
    if i.InResume? {
      RefusedApplyResume(c, a, i.now, i.ds, now2, x, lease);
    } else if i.InRestart? {
      LeaseAgreement(c, a, x);
    } else if Subject(a, i) != x {
      InvReact(c, a, i);
      LeaseFrame(c, a, React(c, a, i).agent, Subject(a, i), now2, x, lease);
    } else {
      RefusedAt(c, a, i, now2, x, lease);
    }
  }

  lemma RefusedAt(c: Config, a: Agent, i: Input, now2: int, x: AttemptId, lease: LeaseId)
    requires Inv(c, a) && Allowed(a, i) && i.now <= now2 && !i.InResume? && !i.InRestart? && Subject(a, i) == x
    requires !LeaseOk(a, i.now, x, lease) && !Grants(i, x, lease)
    ensures !LeaseOk(React(c, a, i).agent, now2, x, lease)
  {
    hide Inv, LeaseOk, OnEvent, OnDone, Assign, StreamAck;
    match i
    case InEvent(_, id, ev) => RefusedAfterEvent(c, a, id, ev, i.now, now2, lease);
    case InDone(now, id, o) => RefusedAfterDone(c, a, now, id, o, now2, lease);
    case InAssign(now, m) => RefusedAfterAssign(c, a, now, m, now2, lease);
    case InStreamAck(now, _, l, k) => RefusedAfterAck(c, a, now, x, l, k, now2, lease);
    case _ => RefusedAfterOther(c, a, i, now2, x, lease);
  }

  /** Whether a lease is accepted is told from the leases of the run, or else of the row. */
  lemma RefusedAlike(a: Agent, b: Agent, now: int, now2: int, x: AttemptId, lease: LeaseId)
    requires now <= now2 && !LeaseOk(a, now, x, lease)
    requires Lookup(a, x).Some? <==> Lookup(b, x).Some?
    requires Lookup(a, x).Some? ==>
               var r, s := Lookup(a, x).value, Lookup(b, x).value;
               s.lease == r.lease && s.prevLease == r.prevLease && s.overlapUntil == r.overlapUntil
    requires x in b.attempts ==> x in a.attempts && b.attempts[x].lease == a.attempts[x].lease
    ensures !LeaseOk(b, now2, x, lease)
  {
  }

  lemma RefusedAfterEvent(c: Config, a: Agent, id: RunId, ev: EngineEvent, now: int, now2: int, lease: LeaseId)
    requires id in a.runs && now <= now2 && !LeaseOk(a, now, a.runs[id].attempt, lease)
    ensures !LeaseOk(OnEvent(c, a, id, ev).agent, now2, a.runs[id].attempt, lease)
  {
    hide LeaseOk, OverCap;
    RefusedAlike(a, OnEvent(c, a, id, ev).agent, now, now2, a.runs[id].attempt, lease);
  }

  lemma RefusedAfterDone(c: Config, a: Agent, now: int, id: RunId, o: Outcome, now2: int, lease: LeaseId)
    requires Inv(c, a) && id in a.runs && now <= now2 && !LeaseOk(a, now, a.runs[id].attempt, lease)
    ensures !LeaseOk(OnDone(c, a, now, id, o).agent, now2, a.runs[id].attempt, lease)
  {
    hide Inv, ResultOf, TerminalStatusOf, FinalStatusOf;
    LeaseAgreement(c, a, a.runs[id].attempt);
  }

  lemma RefusedAfterAssign(c: Config, a: Agent, now: int, m: AssignMsg, now2: int, lease: LeaseId)
    requires now <= now2 && !LeaseOk(a, now, m.attempt, lease) && lease != m.lease
    ensures !LeaseOk(Assign(c, a, now, m).agent, now2, m.attempt, lease)
  {
    hide Admit;
  }

  lemma RefusedAfterAck(c: Config, a: Agent, now: int, x: AttemptId, l: LeaseId, k: nat, now2: int, lease: LeaseId)
    requires now <= now2 && !LeaseOk(a, now, x, lease)
    ensures !LeaseOk(StreamAck(c, a, now, x, l, k).agent, now2, x, lease)
  {
    hide StreamAck, LeaseOk;
    AckIs(c, a, now, x, l, k);
    RefusedAlike(a, StreamAck(c, a, now, x, l, k).agent, now, now2, x, lease);
  }

  /** A grant or a cancellation keeps row and run; a result ack or a revocation ends both. */
  lemma RefusedAfterOther(c: Config, a: Agent, i: Input, now2: int, x: AttemptId, lease: LeaseId)
    requires i.InResultAck? || i.InGranted? || i.InCancel? || i.InRevoke?
    requires Inv(c, a) && i.now <= now2 && i.x == x && !LeaseOk(a, i.now, x, lease) && !Grants(i, x, lease)
    ensures !LeaseOk(React(c, a, i).agent, now2, x, lease)
  {
    LeaseAgreement(c, a, x);
    hide Inv, Dropped;
  }

  ghost predicate Monotone(t: int, tr: seq<Input>)
    decreases |tr|
  {
    tr == [] || (t <= tr[0].now && Monotone(tr[0].now, tr[1..]))
  }

  /** Final retirement, over every run: with a monotone clock, a lease refused once
      stays refused for that attempt as long as nobody grants it to the attempt again. */
  lemma {:induction false} RetiredForGood(c: Config, a: Agent, t: int, tr: seq<Input>, x: AttemptId, lease: LeaseId, t2: int)
    requires Inv(c, a) && Possible(c, a, tr)
    requires Monotone(t, tr) && (tr != [] ==> tr[|tr| - 1].now <= t2) && t <= t2
    requires !LeaseOk(a, t, x, lease)
    requires forall i :: i in tr ==> !Grants(i, x, lease)
    ensures !LeaseOk(After(c, a, tr), t2, x, lease)
    decreases |tr|
  {
    hide LeaseOk, Inv, React, Grants;
    if tr == [] {
      RefusedLater(a, t, t2, x, lease);
    } else {
      var i, b := tr[0], React(c, a, tr[0]).agent;
      RefusedLater(a, t, i.now, x, lease);
      MonotoneBound(i.now, tr[1..], t2);
      RefusedStaysRefused(c, a, i, i.now, x, lease);
      InvReact(c, a, i);
      RetiredForGood(c, b, i.now, tr[1..], x, lease, t2);
    }
  }

  lemma {:induction false} MonotoneBound(t: int, tr: seq<Input>, t2: int)
    requires Monotone(t, tr) && (tr != [] ==> tr[|tr| - 1].now <= t2) && (tr == [] ==> t <= t2)
    ensures t <= t2
    decreases |tr|
  {
    if tr != [] { MonotoneBound(tr[0].now, tr[1..], t2); }
  }
}
