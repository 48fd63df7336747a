/** Which leases are accepted, told from what was granted and when: the lease granted
    last, and for a fixed time after a rotation the one before it. */
module JobOverlap {
  import opened Options
  import opened JobTypes
  import opened EventTable
  import opened JobProtocol
  import opened JobInvariant
  import opened JobRuns
  import opened JobLeases
  import opened JobAssignment

  /** The input gives attempt `x` a lease, other than by creating it. */
  ghost predicate GrantsAny(i: Input, x: AttemptId) {
    match i
    case InGranted(_, y, _) => y == x
    case InResume(_, ds) => exists d :: d in ds && GrantingDirective(d, x)
    case _ => false
  }

  predicate GrantingDirective(d: Directive, x: AttemptId) {
    d.attempt == x && (d.ResumeFrom? || d.ResendResult?) && d.newLease.Some?
  }

  /** What an agent that remembers a rotation from `prev` to `lease` at time `t` accepts:
      once the run is gone, only the lease itself. */
  ghost predicate Remembers(a: Agent, x: AttemptId, lease: LeaseId, prev: Option<LeaseId>, until: int) {
    && x in a.attempts && a.attempts[x].lease == lease
    && (x in a.registry ==>
          && a.registry[x] in a.runs
          && a.runs[a.registry[x]].lease == lease
          && a.runs[a.registry[x]].prevLease == prev
          && (prev.Some? ==> a.runs[a.registry[x]].overlapUntil == until))
  }

  lemma RemembersFrame(c: Config, a: Agent, b: Agent, y: AttemptId, x: AttemptId, lease: LeaseId, prev: Option<LeaseId>, until: int)
    requires Inv(c, a) && Elsewhere(a, b, y) && x != y && Remembers(a, x, lease, prev, until)
    ensures Remembers(b, x, lease, prev, until)
  {
    assert AgreeAt(a, b, x) && LocalOk(c, a, x);
    if x in a.registry { assert RunAgrees(a, b, a.registry[x], y); }
  }

  lemma RemembersDirected(c: Config, a: Agent, now: int, d: Directive, x: AttemptId, lease: LeaseId, prev: Option<LeaseId>, until: int)
    requires Inv(c, a) && Ended(a, d) && !GrantingDirective(d, x) && Remembers(a, x, lease, prev, until)
    requires x in Directed(c, a, now, d).agent.attempts
    ensures Remembers(Directed(c, a, now, d).agent, x, lease, prev, until)
  {
    if d.attempt != x {
      InvDirected(c, a, now, d);
      RemembersFrame(c, a, Directed(c, a, now, d).agent, d.attempt, x, lease, prev, until);
    } else {
      hide Inv, EventsAfter, Dropped, Payloads, Restamped;
    }
  }

  lemma {:induction false} RemembersResume(
      c: Config, a: Agent, now: int, ds: seq<Directive>, x: AttemptId, lease: LeaseId, prev: Option<LeaseId>, until: int)
    requires Inv(c, a) && (forall d :: d in ds ==> Ended(a, d) && !GrantingDirective(d, x))
    requires Remembers(a, x, lease, prev, until) && x in ApplyResume(c, a, now, ds).agent.attempts
    ensures Remembers(ApplyResume(c, a, now, ds).agent, x, lease, prev, until)
  {
    if ds != [] {
      var init, d := ds[..|ds| - 1], ds[|ds| - 1];
      var b := ApplyResume(c, a, now, init).agent;
      InvApplyResume(c, a, now, init);
      assert Ended(a, d) && !GrantingDirective(d, x);
      DirectedKeepsRow(c, b, now, d, x);
      hide Inv, Directed, Remembers;
      RemembersResume(c, a, now, init, x, lease, prev, until);
      RemembersDirected(c, b, now, d, x, lease, prev, until);
    }
  }

  lemma RemembersReact(c: Config, a: Agent, i: Input, x: AttemptId, lease: LeaseId, prev: Option<LeaseId>, until: int)
    requires Inv(c, a) && Allowed(a, i) && !GrantsAny(i, x) && Remembers(a, x, lease, prev, until)
    requires x in React(c, a, i).agent.attempts
    ensures Remembers(React(c, a, i).agent, x, lease, prev, until)
  {
    if i.InResume? {
      RemembersResume(c, a, i.now, i.ds, x, lease, prev, until);
    } else if i.InRestart? {
    } else if Subject(a, i) != x {
      InvReact(c, a, i);
      RemembersFrame(c, a, React(c, a, i).agent, Subject(a, i), x, lease, prev, until);
    } else {
      RemembersAt(c, a, i, x, lease, prev, until);
    }
  }

  lemma RemembersAt(c: Config, a: Agent, i: Input, x: AttemptId, lease: LeaseId, prev: Option<LeaseId>, until: int)
    requires Inv(c, a) && Allowed(a, i) && !i.InResume? && !i.InRestart? && Subject(a, i) == x
    requires !GrantsAny(i, x) && Remembers(a, x, lease, prev, until) && x in React(c, a, i).agent.attempts
    ensures Remembers(React(c, a, i).agent, x, lease, prev, until)
  {
    hide Inv, Assign, StreamAck, ResultAck, CancelJob, Revoke, OnEvent, OnDone;
    match i
    case InAssign(now, m) => RemembersAssign(c, a, now, m, lease, prev, until);
    case InEvent(_, _, _) => RemembersCallback(c, a, i, x, lease, prev, until);
    case InDone(_, _, _) => RemembersCallback(c, a, i, x, lease, prev, until);
    case InStreamAck(now, _, l, k) => RemembersStreamAck(c, a, now, x, l, k, lease, prev, until);
    case InResultAck(now, _, l, digest) => RemembersResultAck(a, now, x, l, digest, lease, prev, until);
    case InCancel(now, _, l, grace) => RemembersCancel(a, now, x, l, grace, lease, prev, until);
    case InRevoke(now, _, l) => RemembersRevoke(a, now, x, l, lease, prev, until);
    case _ =>
  }

  lemma RemembersAssign(c: Config, a: Agent, now: int, m: AssignMsg, lease: LeaseId, prev: Option<LeaseId>, until: int)
    requires Inv(c, a) && Remembers(a, m.attempt, lease, prev, until)
    ensures Remembers(Assign(c, a, now, m).agent, m.attempt, lease, prev, until)
  {
    DuplicateAssign(c, a, now, m);
    hide Inv, Assign;
  }

  lemma RemembersStreamAck(
      c: Config, a: Agent, now: int, x: AttemptId, l: LeaseId, k: nat, lease: LeaseId, prev: Option<LeaseId>, until: int)
    requires Remembers(a, x, lease, prev, until)
    ensures Remembers(StreamAck(c, a, now, x, l, k).agent, x, lease, prev, until)
  {
    hide Acked, OverCap, LeaseOk;
  }

  lemma RemembersResultAck(
      a: Agent, now: int, x: AttemptId, l: LeaseId, digest: Digest, lease: LeaseId, prev: Option<LeaseId>, until: int)
    requires Remembers(a, x, lease, prev, until) && x in ResultAck(a, now, x, l, digest).agent.attempts
    ensures Remembers(ResultAck(a, now, x, l, digest).agent, x, lease, prev, until)
  {
    hide Dropped, LeaseOk;
  }

  lemma RemembersCancel(
      a: Agent, now: int, x: AttemptId, l: LeaseId, grace: nat, lease: LeaseId, prev: Option<LeaseId>, until: int)
    requires Remembers(a, x, lease, prev, until)
    ensures Remembers(CancelJob(a, now, x, l, grace).agent, x, lease, prev, until)
  {
    hide LeaseOk;
  }

  lemma RemembersRevoke(a: Agent, now: int, x: AttemptId, l: LeaseId, lease: LeaseId, prev: Option<LeaseId>, until: int)
    requires Remembers(a, x, lease, prev, until) && x in Revoke(a, now, x, l).agent.attempts
    ensures Remembers(Revoke(a, now, x, l).agent, x, lease, prev, until)
  {
    hide Dropped, LeaseOk;
  }

  lemma RemembersCallback(c: Config, a: Agent, i: Input, x: AttemptId, lease: LeaseId, prev: Option<LeaseId>, until: int)
    requires Inv(c, a) && Allowed(a, i) && (i.InEvent? || i.InDone?) && Subject(a, i) == x
    requires Remembers(a, x, lease, prev, until)
    ensures Remembers(React(c, a, i).agent, x, lease, prev, until)
  {
    assert RunOk(a, i.id);
    hide Inv, LocalOk, RunOk, OverCap, Window, RowsOf, NewRow, ResultOf;
  }

  /** Over any run that grants `x` nothing and keeps its row. */
  lemma {:induction false} RemembersAlways(
      c: Config, a: Agent, tr: seq<Input>, x: AttemptId, lease: LeaseId, prev: Option<LeaseId>, until: int)
    requires Inv(c, a) && Possible(c, a, tr) && NeverDeleted(c, a, tr, x)
    requires Remembers(a, x, lease, prev, until) && forall i :: i in tr ==> !GrantsAny(i, x)
    ensures Remembers(After(c, a, tr), x, lease, prev, until) && Inv(c, After(c, a, tr))
    decreases |tr|
  {
    if tr != [] {
      assert x in a.attempts;
      hide React, Inv, Remembers, GrantsAny;
      RemembersReact(c, a, tr[0], x, lease, prev, until);
      InvReact(c, a, tr[0]);
      RemembersAlways(c, React(c, a, tr[0]).agent, tr[1..], x, lease, prev, until);
    }
  }

  lemma Accepts(c: Config, a: Agent, x: AttemptId, lease: LeaseId, prev: Option<LeaseId>, until: int, t: int, m: LeaseId)
    requires Inv(c, a) && Remembers(a, x, lease, prev, until)
    ensures LeaseOk(a, t, x, m) <==> m == lease || (x in a.registry && prev == Some(m) && t < until)
  {
    assert LocalOk(c, a, x);
  }

  /** After a rotation, whatever happens short of another grant: the new lease is
      accepted for good, the one before it for five seconds and only while the run
      lives in this process, and nothing else. */
  lemma RotationWindow(c: Config, a: Agent, now: int, x: AttemptId, lease: LeaseId, tr: seq<Input>, t: int, m: LeaseId)
    requires Inv(c, a) && x in a.registry && x in a.attempts
    requires var b := LeaseGranted(a, now, x, lease).agent;
             Possible(c, b, tr) && NeverDeleted(c, b, tr, x) && forall i :: i in tr ==> !GrantsAny(i, x)
    ensures var e := After(c, LeaseGranted(a, now, x, lease).agent, tr);
            LeaseOk(e, t, x, m) <==>
            m == lease || (x in e.registry && m == a.attempts[x].lease && t < now + 5_000)
  {
    var b, prev := LeaseGranted(a, now, x, lease).agent, Some(a.attempts[x].lease);
    InvLeaseGranted(c, a, now, x, lease);
    assert Remembers(b, x, lease, prev, now + 5_000) by { assert LocalOk(c, a, x); }
    RemembersAlways(c, b, tr, x, lease, prev, now + 5_000);
    Accepts(c, After(c, b, tr), x, lease, prev, now + 5_000, t, m);
  }

  /** The same when a resume directive brings a new lease. */
  lemma DirectiveWindow(c: Config, a: Agent, now: int, d: Directive, tr: seq<Input>, t: int, m: LeaseId)
    requires Inv(c, a) && (d.ResumeFrom? || d.ResendResult?) && d.newLease.Some?
    requires d.attempt in a.registry && d.attempt in a.attempts && d.newLease.value != a.attempts[d.attempt].lease
    requires var b := Directed(c, a, now, d).agent;
             Possible(c, b, tr) && NeverDeleted(c, b, tr, d.attempt) && forall i :: i in tr ==> !GrantsAny(i, d.attempt)
    ensures var e := After(c, Directed(c, a, now, d).agent, tr);
            LeaseOk(e, t, d.attempt, m) <==>
            m == d.newLease.value || (d.attempt in e.registry && m == a.attempts[d.attempt].lease && t < now + 5_000)
  {
    var x, lease := d.attempt, d.newLease.value;
    var b, prev := Directed(c, a, now, d).agent, Some(a.attempts[x].lease);
    InvDirected(c, a, now, d);
    assert Remembers(b, x, lease, prev, now + 5_000) by {
      assert LocalOk(c, a, x);
      hide EventsAfter, Payloads, Restamped;
    }
    RemembersAlways(c, b, tr, x, lease, prev, now + 5_000);
    Accepts(c, After(c, b, tr), x, lease, prev, now + 5_000, t, m);
  }

  /** A directive that brings the lease that is current anyway opens no window and closes
      none: what is accepted, and until when, is as it was. */
  lemma SameLeaseKeepsWindow(c: Config, a: Agent, now: int, d: Directive, t: int, m: LeaseId)
    requires Inv(c, a) && (d.ResumeFrom? || d.ResendResult?) && d.attempt in a.attempts
    requires d.newLease == Some(a.attempts[d.attempt].lease)
    ensures LeaseOk(Directed(c, a, now, d).agent, t, d.attempt, m) <==> LeaseOk(a, t, d.attempt, m)
  {
    LeaseAgreement(c, a, d.attempt);
    hide Inv, EventsAfter, Payloads, Restamped;
  }

  /** And after an assignment only its own lease is accepted, until another is granted. */
  lemma AssignmentWindow(c: Config, a: Agent, now: int, m: AssignMsg, tr: seq<Input>, t: int, l: LeaseId)
    requires Inv(c, a) && m.attempt !in a.attempts && m.attempt in Assign(c, a, now, m).agent.attempts
    requires var b := Assign(c, a, now, m).agent;
             Possible(c, b, tr) && NeverDeleted(c, b, tr, m.attempt) && forall i :: i in tr ==> !GrantsAny(i, m.attempt)
    ensures LeaseOk(After(c, Assign(c, a, now, m).agent, tr), t, m.attempt, l) <==> l == m.lease
  {
    var b := Assign(c, a, now, m).agent;
    InvAssign(c, a, now, m);
    RemembersAlways(c, b, tr, m.attempt, m.lease, None, 0);
    Accepts(c, After(c, b, tr), m.attempt, m.lease, None, 0, t, l);
  }
}
