/** Idempotent assignment: between the creation and the deletion of an attempt the
    engine is started at most once, and every duplicate is answered alike. */
module JobAssignment {
  import opened Options
  import opened JobTypes
  import opened EventTable
  import opened JobProtocol
  import opened JobInvariant
  import opened JobRuns
  import opened JobLeases

  /** A duplicate `job.assign` changes nothing, starts nothing, and is answered from the
      durable row: re-confirmed with the same run id and lease, or fenced when it
      names another lease. It makes no difference whether the run is live. */
  lemma DuplicateAssign(c: Config, a: Agent, now: int, m: AssignMsg)
    requires Inv(c, a) && m.attempt in a.attempts
    ensures var row := a.attempts[m.attempt];
            Assign(c, a, now, m) ==
            Out(a,
                [if m.lease == row.lease then JobAccept(m.job, m.attempt, row.lease, row.run)
                 else JobReject(m.job, m.attempt, m.lease, StaleLease)],
                [])
  {
    LeaseAgreement(c, a, m.attempt);
  }

  predicate StartsEngine(calls: seq<EngineCall>) {
    exists k :: 0 <= k < |calls| && calls[k].Start?
  }

  /** One input: the engine is started only by an assignment of an attempt that has no
      row; a row that survives keeps its run id and job. */
  lemma StartNeedsNoRow(c: Config, a: Agent, i: Input, x: AttemptId)
    requires Inv(c, a) && Allowed(a, i) && x in a.attempts && x in React(c, a, i).agent.attempts
    ensures React(c, a, i).agent.attempts[x].run == a.attempts[x].run
    ensures React(c, a, i).agent.attempts[x].job == a.attempts[x].job
    ensures i.InAssign? && i.m.attempt == x ==> React(c, a, i).calls == []
  {
    hide Inv, RowsOf, Acked, Dropped, Bytes, OverCap, LeaseOk;
    if i.InResume? {
      ResumeKeepsRow(c, a, i.now, i.ds, x);
    } else if i.InRestart? {
    } else if Subject(a, i) != x {
      InvReact(c, a, i);
      assert AgreeAt(a, React(c, a, i).agent, x);
    } else if i.InAssign? {
      DuplicateAssign(c, a, i.now, i.m);
    }
  }

  lemma {:induction false} ResumeKeepsRow(c: Config, a: Agent, now: int, ds: seq<Directive>, x: AttemptId)
    requires x in ApplyResume(c, a, now, ds).agent.attempts
    ensures x in a.attempts
    ensures ApplyResume(c, a, now, ds).agent.attempts[x].run == a.attempts[x].run
    ensures ApplyResume(c, a, now, ds).agent.attempts[x].job == a.attempts[x].job
    ensures forall call :: call in ApplyResume(c, a, now, ds).calls ==> !call.Start?
  {
    if ds != [] {
      var init := ApplyResume(c, a, now, ds[..|ds| - 1]).agent;
      DirectedKeepsRow(c, init, now, ds[|ds| - 1], x);
      hide Directed;
      ResumeKeepsRow(c, a, now, ds[..|ds| - 1], x);
    }
  }

  lemma DirectedKeepsRow(c: Config, a: Agent, now: int, d: Directive, x: AttemptId)
    requires x in Directed(c, a, now, d).agent.attempts
    ensures x in a.attempts
    ensures Directed(c, a, now, d).agent.attempts[x].run == a.attempts[x].run
    ensures Directed(c, a, now, d).agent.attempts[x].job == a.attempts[x].job
    ensures forall call :: call in Directed(c, a, now, d).calls ==> !call.Start?
  {
    hide EventsAfter, Dropped, Payloads, Restamped, Adopted;
    if d.ResumeFrom? || d.ResendResult? { AdoptedKeeps(a, now, d.attempt, d.newLease); }
  }

  /** How often a run of inputs starts an engine for attempt `x`. */
  ghost function StartsFor(c: Config, a: Agent, tr: seq<Input>, x: AttemptId): nat
    requires Possible(c, a, tr)
    decreases |tr|
  {
    if tr == [] then 0
    else
      var here := if tr[0].InAssign? && tr[0].m.attempt == x && StartsEngine(React(c, a, tr[0]).calls) then 1 else 0;
      here + StartsFor(c, React(c, a, tr[0]).agent, tr[1..], x)
  }

  /** Once the row of `x` exists it is never deleted in this run. */
  ghost predicate NeverDeleted(c: Config, a: Agent, tr: seq<Input>, x: AttemptId)
    requires Possible(c, a, tr)
    decreases |tr|
  {
    tr == [] ||
    var b := React(c, a, tr[0]).agent;
    (x in a.attempts ==> x in b.attempts) && NeverDeleted(c, b, tr[1..], x)
  }

  /** Over every run, across duplicates, reconnects and restarts: as long as the row of
      an attempt is not deleted, its engine is started at most once, and not at all
      if the row was there from the start; the run id then never changes. */
  lemma {:induction false} StartedAtMostOnce(c: Config, a: Agent, tr: seq<Input>, x: AttemptId)
    requires Inv(c, a) && Possible(c, a, tr) && NeverDeleted(c, a, tr, x)
    ensures StartsFor(c, a, tr, x) <= if x in a.attempts then 0 else 1
    ensures x in a.attempts ==>
              x in After(c, a, tr).attempts && After(c, a, tr).attempts[x].run == a.attempts[x].run
    decreases |tr|
  {
    if tr != [] {
      var i, b := tr[0], React(c, a, tr[0]).agent;
      if x in a.attempts { StartNeedsNoRow(c, a, i, x); }
      if i.InAssign? && i.m.attempt == x && StartsEngine(React(c, a, i).calls) { StartCreatesRow(c, a, i.now, i.m); }
      InvReact(c, a, i);
      hide React, Inv;
      StartedAtMostOnce(c, b, tr[1..], x);
    }
  }

  lemma StartCreatesRow(c: Config, a: Agent, now: int, m: AssignMsg)
    requires StartsEngine(Assign(c, a, now, m).calls)
    ensures Assign(c, a, now, m) == Begin(a, now, m) && m.attempt in Begin(a, now, m).agent.attempts
  {
  }

  /** Admission: a new attempt is started exactly when there is a free slot, the engine
      accepts the job, and the approval gate is usable or not needed. */
  lemma AdmittedIff(c: Config, a: Agent, now: int, m: AssignMsg)
    requires Inv(c, a) && m.attempt !in a.attempts
    ensures (m.attempt in Assign(c, a, now, m).agent.registry) <==>
            |a.registry| < c.maxConcurrent && m.rejection.None? && (c.gateAvailable || !m.gated)
    ensures m.attempt !in Assign(c, a, now, m).agent.registry ==>
              Assign(c, a, now, m).agent == a && Assign(c, a, now, m).calls == []
  {
    LeaseAgreement(c, a, m.attempt);
    assert LocalOk(c, a, m.attempt);
  }
}
