/** Terminal results: durable until acknowledged by lease and digest, and always
    acknowledgeable by an echo of what was last sent. */
module JobResults {
  import opened Options
  import opened JobTypes
  import opened EventTable
  import opened JobProtocol
  import opened JobInvariant
  import opened JobRuns
  import opened JobLeases

  /** An acknowledgement collects a result exactly when it bears the durable lease of
      the attempt and the stored digest; otherwise nothing changes. */
  lemma AckCollectsIff(c: Config, a: Agent, now: int, x: AttemptId, lease: LeaseId, digest: Digest)
    requires Inv(c, a) && x in a.results
    ensures var b := ResultAck(a, now, x, lease, digest).agent;
            && (x !in b.results <==> x in a.attempts && lease == a.attempts[x].lease && digest == a.results[x].digest)
            && (x !in b.results ==> x !in b.attempts && RowsOf(b.events, x) == [])
            && (x in b.results ==> b == a)
  {
    assert LocalOk(c, a, x);
    RowsOfDropped(a.events, x, x);
  }

  /** The result stored for `x` was built under the lease that is current for `x`. */
  ghost predicate ResultCurrent(a: Agent, x: AttemptId) {
    x in a.results ==> x in a.attempts && a.results[x].lease == a.attempts[x].lease
  }

  /** An ack that echoes the lease and the digest of the stored result collects it
      exactly when the result was built under the current lease. */
  lemma EchoCollectsIff(c: Config, a: Agent, now: int, x: AttemptId)
    requires Inv(c, a) && x in a.results
    ensures var r := a.results[x].payload;
            x !in ResultAck(a, now, x, r.body.lease, c.digest(r.body)).agent.results <==> ResultCurrent(a, x)
  {
    assert LocalOk(c, a, x);
    AckCollectsIff(c, a, now, x, a.results[x].payload.body.lease, c.digest(a.results[x].payload.body));
  }

  /** `resume_from` moves the lease of an attempt but not that of its stored result, so on
      a terminal attempt it must repeat the lease the result has, or bring none. */
  ghost predicate LeavesLease(a: Agent, d: Directive) {
    d.ResumeFrom? && d.attempt in a.results && d.newLease.Some? ==> d.newLease.value == a.results[d.attempt].lease
  }

  ghost predicate Disciplined(c: Config, a: Agent, i: Input) {
    i.InResume? ==> AllLeaveLease(c, a, i.now, i.ds)
  }

  lemma CurrentDirected(c: Config, a: Agent, now: int, d: Directive)
    requires Inv(c, a) && LeavesLease(a, d) && forall x: AttemptId :: ResultCurrent(a, x)
    ensures forall x: AttemptId :: ResultCurrent(Directed(c, a, now, d).agent, x)
  {
    var b := Directed(c, a, now, d).agent;
    forall x: AttemptId ensures ResultCurrent(b, x) {
      assert ResultCurrent(a, x);
      CurrentDirectedAt(c, a, now, d, x);
    }
    hide Inv, EventsAfter, Dropped, Payloads;
  }

  lemma CurrentDirectedAt(c: Config, a: Agent, now: int, d: Directive, x: AttemptId)
    requires Inv(c, a) && LeavesLease(a, d) && ResultCurrent(a, x)
    ensures ResultCurrent(Directed(c, a, now, d).agent, x)
  {
    hide EventsAfter, Dropped, Payloads, Fence, Inv, Adopted;
    if d.ResendResult? {
      CurrentResend(c, a, now, d.attempt, d.newLease, x);
    } else if d.ResumeFrom? {
      AdoptedIs(a, now, d.attempt, d.newLease);
    } else {
      FenceKeepsTables(a, d.attempt);
    }
  }

  lemma FenceKeepsTables(a: Agent, x: AttemptId)
    ensures Fence(a, x).agent.attempts == a.attempts && Fence(a, x).agent.results == a.results
  {
  }

  lemma CurrentResend(c: Config, a: Agent, now: int, y: AttemptId, lease: Option<LeaseId>, x: AttemptId)
    requires Inv(c, a) && ResultCurrent(a, x)
    ensures ResultCurrent(Directed(c, a, now, ResendResult(y, lease)).agent, x)
  {
    assert x in a.results ==> a.results[x].lease == a.results[x].payload.body.lease by { assert LocalOk(c, a, x); }
    hide Inv, Adopted;
    AdoptedIs(a, now, y, lease);
  }

  /** Each directive of the list leaves the lease in the state it meets. */
  ghost predicate AllLeaveLease(c: Config, a: Agent, now: int, ds: seq<Directive>) {
    ds == [] ||
    (var init := ds[..|ds| - 1];
     AllLeaveLease(c, a, now, init) && LeavesLease(ApplyResume(c, a, now, init).agent, ds[|ds| - 1]))
  }

  lemma {:induction false} CurrentApplyResume(c: Config, a: Agent, now: int, ds: seq<Directive>)
    requires Inv(c, a) && forall x: AttemptId :: ResultCurrent(a, x)
    requires AllLeaveLease(c, a, now, ds) && forall d :: d in ds ==> Ended(a, d)
    ensures forall x: AttemptId :: ResultCurrent(ApplyResume(c, a, now, ds).agent, x)
  {
    if ds != [] {
      var init, d := ds[..|ds| - 1], ds[|ds| - 1];
      assert Ended(a, d);
      InvApplyResume(c, a, now, init);
      CurrentApplyResume(c, a, now, init);
      hide Inv, Directed;
      CurrentDirected(c, ApplyResume(c, a, now, init).agent, now, d);
    }
  }

  lemma CurrentReact(c: Config, a: Agent, i: Input)
    requires Inv(c, a) && Allowed(a, i) && Disciplined(c, a, i) && forall x: AttemptId :: ResultCurrent(a, x)
    ensures forall x: AttemptId :: ResultCurrent(React(c, a, i).agent, x)
  {
    if i.InResume? {
      CurrentApplyResume(c, a, i.now, i.ds);
    } else if i.InRestart? {
      forall x: AttemptId ensures ResultCurrent(React(c, a, i).agent, x) { assert ResultCurrent(a, x); }
    } else {
      var b, y := React(c, a, i).agent, Subject(a, i);
      InvReact(c, a, i);
      forall x: AttemptId | x != y ensures ResultCurrent(b, x) { assert AgreeAt(a, b, x) && ResultCurrent(a, x); }
      CurrentAt(c, a, i);
    }
  }

  lemma CurrentAt(c: Config, a: Agent, i: Input)
    requires Inv(c, a) && Allowed(a, i) && !i.InResume? && !i.InRestart? && ResultCurrent(a, Subject(a, i))
    ensures ResultCurrent(React(c, a, i).agent, Subject(a, i))
  {
    var x := Subject(a, i);
    assert LocalOk(c, a, x);
    Basics(c, a, x);
    LeaseAgreement(c, a, x);
    if i.InEvent? || i.InDone? { assert RunOk(a, i.id); }
    hide Inv, LocalOk, RunOk, RowsOf, Acked, Dropped, Bytes, OverCap, LeaseOk;
  }

  // ---- what was last sent ----

  /** The last `job.result` for `x` among `sent`, or `before`. */
  function LastResult(sent: seq<Msg>, x: AttemptId, before: Option<ResultMsg>): Option<ResultMsg> {
    if sent == [] then before
    else
      var m := sent[|sent| - 1];
      if m.JobResult? && m.result.body.attempt == x then Some(m.result)
      else LastResult(sent[..|sent| - 1], x, before)
  }

  /** The stored payload is the `job.result` last built for the attempt. */
  ghost predicate StoredIsLast(a: Agent, x: AttemptId, last: Option<ResultMsg>) {
    x in a.results ==> last == Some(a.results[x].payload)
  }

  lemma {:induction false} LastOfConcat(s: seq<Msg>, t: seq<Msg>, x: AttemptId, before: Option<ResultMsg>)
    ensures LastResult(s + t, x, before) == LastResult(t, x, LastResult(s, x, before))
  {
    if t == [] {
      assert s + t == s;
    } else {
      LastOfConcat(s, t[..|t| - 1], x, before);
      assert (s + t)[..|s + t| - 1] == s + t[..|t| - 1];
    }
  }

  lemma {:induction false} LastOfNone(sent: seq<Msg>, x: AttemptId, before: Option<ResultMsg>)
    requires forall m :: m in sent ==> !(m.JobResult? && m.result.body.attempt == x)
    ensures LastResult(sent, x, before) == before
  {
    if sent != [] { LastOfNone(sent[..|sent| - 1], x, before); }
  }

  lemma LastDirected(c: Config, a: Agent, now: int, d: Directive, x: AttemptId, last: Option<ResultMsg>)
    requires Inv(c, a) && Ended(a, d) && StoredIsLast(a, x, last)
    ensures var o := Directed(c, a, now, d); StoredIsLast(o.agent, x, LastResult(o.sent, x, last))
  {
    var o := Directed(c, a, now, d);
    assert LocalOk(c, a, d.attempt);
    if d.ResumeFrom? {
      ResumeSendsNoResult(c, a, now, d, x);
      LastOfNone(o.sent, x, last);
    } else {
      InvAdopted(c, a, now, d.attempt, if d.ResendResult? then d.newLease else None);
      hide Inv, EventsAfter, Dropped;
    }
  }

  lemma ResumeSendsNoResult(c: Config, a: Agent, now: int, d: Directive, x: AttemptId)
    requires Inv(c, a) && d.ResumeFrom?
    ensures forall m :: m in Directed(c, a, now, d).sent ==> m.StreamEvent?
  {
    InvAdopted(c, a, now, d.attempt, d.newLease);
    ResumedMessages(c, Adopted(a, now, d.attempt, d.newLease), d.attempt, d.after, d.newLease);
    hide Adopted, Inv, EventsAfter;
  }

  lemma {:induction false} LastApplyResume(
      c: Config, a: Agent, now: int, ds: seq<Directive>, x: AttemptId, last: Option<ResultMsg>)
    requires Inv(c, a) && StoredIsLast(a, x, last) && forall d :: d in ds ==> Ended(a, d)
    ensures var o := ApplyResume(c, a, now, ds); StoredIsLast(o.agent, x, LastResult(o.sent, x, last))
  {
    if ds != [] {
      var init, d := ds[..|ds| - 1], ds[|ds| - 1];
      assert Ended(a, d);
      InvApplyResume(c, a, now, init);
      LastApplyResume(c, a, now, init, x, last);
      var o := ApplyResume(c, a, now, init);
      hide Inv, Directed, StoredIsLast, LastResult;
      LastDirected(c, o.agent, now, d, x, LastResult(o.sent, x, last));
      LastOfConcat(o.sent, Directed(c, o.agent, now, d).sent, x, last);
    }
  }

  lemma LastReact(c: Config, a: Agent, i: Input, x: AttemptId, last: Option<ResultMsg>)
    requires Inv(c, a) && Allowed(a, i) && StoredIsLast(a, x, last)
    ensures var o := React(c, a, i); StoredIsLast(o.agent, x, LastResult(o.sent, x, last))
  {
    if i.InResume? {
      LastApplyResume(c, a, i.now, i.ds, x, last);
    } else {
      var o := React(c, a, i);
      if i.InDone? {
        assert RunOk(a, i.id);
        assert LastResult([], x, last) == last;
      } else {
        SendsNoResult(c, a, i, x);
        LastOfNone(o.sent, x, last);
      }
    }
  }

  lemma SendsNoResult(c: Config, a: Agent, i: Input, x: AttemptId)
    requires Allowed(a, i) && !i.InResume? && !i.InDone?
    ensures forall m :: m in React(c, a, i).sent ==> !m.JobResult?
    ensures x in React(c, a, i).agent.results ==>
              x in a.results && React(c, a, i).agent.results[x] == a.results[x]
  {
    hide RowsOf, Acked, Dropped, Bytes, OverCap, LeaseOk, Admit;
  }

  /** The last `job.result` built for `x` over a run. */
  ghost function LastBuilt(c: Config, a: Agent, tr: seq<Input>, x: AttemptId, before: Option<ResultMsg>): Option<ResultMsg>
    requires Possible(c, a, tr)
    decreases |tr|
  {
    if tr == [] then before
    else LastBuilt(c, React(c, a, tr[0]).agent, tr[1..], x, LastResult(React(c, a, tr[0]).sent, x, before))
  }

  ghost predicate AllDisciplined(c: Config, a: Agent, tr: seq<Input>)
    requires Possible(c, a, tr)
    decreases |tr|
  {
    tr == [] || (Disciplined(c, a, tr[0]) && AllDisciplined(c, React(c, a, tr[0]).agent, tr[1..]))
  }

  lemma {:induction false} LastBuiltIsStored(c: Config, a: Agent, tr: seq<Input>, x: AttemptId, before: Option<ResultMsg>)
    requires Inv(c, a) && Possible(c, a, tr) && StoredIsLast(a, x, before)
    ensures StoredIsLast(After(c, a, tr), x, LastBuilt(c, a, tr, x, before)) && Inv(c, After(c, a, tr))
    decreases |tr|
  {
    hide React, Inv, StoredIsLast;
    if tr != [] {
      InvReact(c, a, tr[0]);
      LastReact(c, a, tr[0], x, before);
      LastBuiltIsStored(c, React(c, a, tr[0]).agent, tr[1..], x, LastResult(React(c, a, tr[0]).sent, x, before));
    }
  }

  lemma {:induction false} CurrentAlways(c: Config, a: Agent, tr: seq<Input>)
    requires Inv(c, a) && Possible(c, a, tr) && AllDisciplined(c, a, tr) && forall y: AttemptId :: ResultCurrent(a, y)
    ensures forall y: AttemptId :: ResultCurrent(After(c, a, tr), y)
    decreases |tr|
  {
    hide React, Inv, ResultCurrent, Disciplined;
    if tr != [] {
      InvReact(c, a, tr[0]);
      CurrentReact(c, a, tr[0]);
      CurrentAlways(c, React(c, a, tr[0]).agent, tr[1..]);
    }
  }

  /** Over every run from an empty agent and any number of re-stamps: the pending result
      is the `job.result` last built, and a relay that echoes its lease and digest
      collects it exactly if that lease is the durable one of the attempt. */
  lemma EchoOfLastCollectsIff(c: Config, tr: seq<Input>, now: int, x: AttemptId)
    requires Possible(c, EmptyAgent, tr) && x in After(c, EmptyAgent, tr).results
    ensures var a, last := After(c, EmptyAgent, tr), LastBuilt(c, EmptyAgent, tr, x, None);
            && last.Some? && a.results[x].payload == last.value
            && (x !in ResultAck(a, now, x, last.value.body.lease, c.digest(last.value.body)).agent.results
                <==> x in a.attempts && last.value.body.lease == a.attempts[x].lease)
  {
    InvEmpty(c);
    LastBuiltIsStored(c, EmptyAgent, tr, x, None);
    EchoCollectsIff(c, After(c, EmptyAgent, tr), now, x);
    assert LocalOk(c, After(c, EmptyAgent, tr), x);
  }

  /** So it always collects it when every `resume_from` on a terminal attempt leaves the
      lease of the result alone. */
  lemma LastResultAlwaysAckable(c: Config, tr: seq<Input>, now: int, x: AttemptId)
    requires Possible(c, EmptyAgent, tr) && AllDisciplined(c, EmptyAgent, tr)
    requires x in After(c, EmptyAgent, tr).results
    ensures var a, last := After(c, EmptyAgent, tr), LastBuilt(c, EmptyAgent, tr, x, None);
            && last.Some?
            && x !in ResultAck(a, now, x, last.value.body.lease, c.digest(last.value.body)).agent.results
  {
    InvEmpty(c);
    CurrentAlways(c, EmptyAgent, tr);
    InvAlways(c, EmptyAgent, tr);
    EchoOfLastCollectsIff(c, tr, now, x);
    assert ResultCurrent(After(c, EmptyAgent, tr), x) && LocalOk(c, After(c, EmptyAgent, tr), x);
  }

  // ---- durability ----

  lemma DropsDirected(c: Config, a: Agent, now: int, d: Directive, x: AttemptId)
    requires x in a.results && x !in Directed(c, a, now, d).agent.results
    ensures d == AckPending(x) || d == Abandon(x)
  {
    hide EventsAfter, Dropped, Payloads, Restamped;
  }

  lemma {:induction false} DropsApplyResume(c: Config, a: Agent, now: int, ds: seq<Directive>, x: AttemptId)
    requires x in a.results && x !in ApplyResume(c, a, now, ds).agent.results
    ensures AckPending(x) in ds || Abandon(x) in ds
  {
    var init, d := ds[..|ds| - 1], ds[|ds| - 1];
    assert ds == init + [d];
    var a1 := ApplyResume(c, a, now, init).agent;
    if x in a1.results { DropsDirected(c, a1, now, d, x); } else { DropsApplyResume(c, a, now, init, x); }
  }

  lemma EchoNeedsLease(c: Config, a: Agent, now: int, y: AttemptId, lease: LeaseId, digest: Digest, x: AttemptId)
    requires Inv(c, a) && x in a.results && x !in ResultAck(a, now, y, lease, digest).agent.results
    ensures y == x && x in a.attempts && lease == a.attempts[x].lease && digest == a.results[x].digest
  {
    Basics(c, a, x) by { assert LocalOk(c, a, x); }
    assert x in a.attempts by { assert LocalOk(c, a, x); }
    hide Inv, Window, RowsOf;
  }

  /** A result leaves the store only by an ack with the durable lease and the stored
      digest, or by an explicit `ack_pending` or `abandon` of its attempt. */
  lemma ResultIsDurable(c: Config, a: Agent, i: Input, x: AttemptId)
    requires Inv(c, a) && Allowed(a, i) && x in a.results && x !in React(c, a, i).agent.results
    ensures || (i.InResultAck? && i.x == x && x in a.attempts
                && i.lease == a.attempts[x].lease && i.digest == a.results[x].digest)
            || (i.InResume? && (AckPending(x) in i.ds || Abandon(x) in i.ds))
  {
    hide RowsOf, Acked, Dropped, Bytes, OverCap, Admit, ApplyResume;
    if i.InResume? {
      DropsApplyResume(c, a, i.now, i.ds, x);
    } else if i.InResultAck? {
      EchoNeedsLease(c, a, i.now, i.x, i.lease, i.digest, x);
    } else {
      hide Inv, LeaseOk;
    }
  }

  /** A state reached without the discipline: `resume_from` with a new lease on a
      terminal attempt. The echo of the stored result is then refused. */
  lemma ResumeOnTerminalStrandsEcho(c: Config, a: Agent, now: int, x: AttemptId, k: nat, lease: LeaseId)
    requires Inv(c, a) && x in a.results && ResultCurrent(a, x)
    ensures var b := Directed(c, a, now, ResumeFrom(x, k, Some(lease))).agent;
            && x in b.results && b.results[x] == a.results[x]
            && (x in ResultAck(b, now, x, a.results[x].payload.body.lease, a.results[x].digest).agent.results
                <==> lease != a.results[x].lease)
  {
    assert LocalOk(c, a, x);
    InvAdopted(c, a, now, x, Some(lease));
    var b := Directed(c, a, now, ResumeFrom(x, k, Some(lease))).agent;
    AckCollectsIff(c, b, now, x, a.results[x].payload.body.lease, a.results[x].digest);
  }
}
