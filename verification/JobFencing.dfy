/** Local fencing: a run whose lease was revoked, or whose attempt was abandoned, can
    never again change a table or the registry, or send anything. */
module JobFencing {
  import opened Options
  import opened JobTypes
  import opened EventTable
  import opened JobProtocol
  import opened JobInvariant
  import opened JobRuns

  /** The run named `id` is fenced (or gone with its process) and not registered. */
  ghost predicate Fenced(a: Agent, id: RunId) {
    && id < a.nextId
    && (id in a.runs ==> a.runs[id].fenced)
    && (forall x :: x in a.registry ==> a.registry[x] != id)
  }

  lemma RevokeFences(a: Agent, c: Config, now: int, x: AttemptId, lease: LeaseId)
    requires Inv(c, a) && x in a.registry && LeaseOk(a, now, x, lease)
    ensures Fenced(Revoke(a, now, x, lease).agent, a.registry[x])
    ensures Revoke(a, now, x, lease).sent == []
    ensures Revoke(a, now, x, lease).calls == [Cancel(a.registry[x], 0)]
  {
    FenceFences(a, c, x);
  }

  lemma AbandonFences(a: Agent, c: Config, now: int, x: AttemptId)
    requires Inv(c, a) && x in a.registry
    ensures Fenced(Directed(c, a, now, Abandon(x)).agent, a.registry[x])
    ensures Directed(c, a, now, Abandon(x)).sent == []
    ensures Directed(c, a, now, Abandon(x)).calls == [Cancel(a.registry[x], 0)]
  {
    FenceFences(a, c, x);
  }

  lemma FenceFences(a: Agent, c: Config, x: AttemptId)
    requires Inv(c, a) && x in a.registry
    ensures Lookup(a, x).Some? && Fence(a, x).calls == [Cancel(a.registry[x], 0)]
    ensures Fenced(Fence(a, x).agent, a.registry[x])
  {
    assert LocalOk(c, a, x) && RunOk(a, a.registry[x]);
    forall y | y in a.registry && y != x ensures a.registry[y] != a.registry[x] { assert LocalOk(c, a, y); }
  }

  lemma FencedDirected(c: Config, a: Agent, now: int, d: Directive, id: RunId)
    requires Fenced(a, id)
    ensures Fenced(Directed(c, a, now, d).agent, id)
  {
    hide EventsAfter, Dropped, Payloads, Restamped, Adopted, Fence;
    if d.ResumeFrom? || d.ResendResult? {
      FencedAdopted(a, now, d.attempt, d.newLease, id);
    } else {
      FencedFence(a, d.attempt, id);
    }
  }

  lemma FencedAdopted(a: Agent, now: int, x: AttemptId, lease: Option<LeaseId>, id: RunId)
    requires Fenced(a, id)
    ensures Fenced(Adopted(a, now, x, lease), id)
  {
  }

  lemma FencedFence(a: Agent, x: AttemptId, id: RunId)
    requires Fenced(a, id)
    ensures Fenced(Fence(a, x).agent, id)
  {
  }

  lemma FencedDone(c: Config, a: Agent, now: int, e: RunId, o: Outcome, id: RunId)
    requires Fenced(a, id) && e in a.runs
    ensures Fenced(OnDone(c, a, now, e, o).agent, id)
  {
    hide ResultOf;
  }

  lemma FencedEvent(c: Config, a: Agent, e: RunId, ev: EngineEvent, id: RunId)
    requires Fenced(a, id) && e in a.runs
    ensures Fenced(OnEvent(c, a, e, ev).agent, id)
  {
    hide NewRow, OverCap;
  }

  lemma FencedAssign(c: Config, a: Agent, now: int, m: AssignMsg, id: RunId)
    requires Fenced(a, id)
    ensures Fenced(Assign(c, a, now, m).agent, id)
  {
    hide Admit, Existing;
  }

  lemma FencedAck(c: Config, a: Agent, now: int, x: AttemptId, lease: LeaseId, k: nat, id: RunId)
    requires Fenced(a, id)
    ensures Fenced(StreamAck(c, a, now, x, lease, k).agent, id)
  {
    hide Acked, OverCap, LeaseOk;
  }

  lemma {:induction false} FencedApplyResume(c: Config, a: Agent, now: int, ds: seq<Directive>, id: RunId)
    requires Fenced(a, id)
    ensures Fenced(ApplyResume(c, a, now, ds).agent, id)
  {
    if ds != [] {
      FencedApplyResume(c, a, now, ds[..|ds| - 1], id);
      FencedDirected(c, ApplyResume(c, a, now, ds[..|ds| - 1]).agent, now, ds[|ds| - 1], id);
    }
  }

  lemma FencedReact(c: Config, a: Agent, i: Input, id: RunId)
    requires Allowed(a, i) && Fenced(a, id)
    ensures Fenced(React(c, a, i).agent, id)
  {
    hide Dropped, LeaseOk, Fence, OnEvent, OnDone, Assign, StreamAck, ApplyResume;
    match i
    case InResume(now, ds) => FencedApplyResume(c, a, now, ds, id);
    case InEvent(_, e, ev) => FencedEvent(c, a, e, ev, id);
    case InDone(now, e, o) => FencedDone(c, a, now, e, o, id);
    case InAssign(now, m) => FencedAssign(c, a, now, m, id);
    case InStreamAck(now, x, lease, k) => FencedAck(c, a, now, x, lease, k, id);
    case InRevoke(_, x, _) => FencedFence(a, x, id);
    case _ =>
  }

  lemma {:induction false} FencedAlways(c: Config, a: Agent, tr: seq<Input>, id: RunId)
    requires Possible(c, a, tr) && Fenced(a, id)
    ensures Fenced(After(c, a, tr), id)
    decreases |tr|
  {
    hide React, Fenced;
    if tr != [] {
      FencedReact(c, a, tr[0], id);
      FencedAlways(c, React(c, a, tr[0]).agent, tr[1..], id);
    }
  }

  ghost predicate CallbackOf(i: Input, id: RunId) {
    (i.InEvent? || i.InDone?) && i.id == id
  }

  /** A callback of a fenced run is a frame: tables, registry and start times are as
      they were, and nothing is sent or asked of the engine. */
  lemma FencedIsInert(c: Config, a: Agent, i: Input, id: RunId)
    requires Fenced(a, id) && Allowed(a, i) && CallbackOf(i, id)
    ensures var o := React(c, a, i);
            && o.sent == [] && o.calls == []
            && o.agent == a.(runs := o.agent.runs)
            && o.agent.runs - {id} == a.runs - {id}
  {
    var o := React(c, a, i);
    assert forall x :: x in a.registry ==> a.registry[x] != id;
    assert o.agent.runs - {id} == a.runs - {id};
  }

  /** Fencing holds over every continuation, also one that assigns the same attempt id
      to a fresh run: no later callback of the revoked run has any effect. */
  lemma RevokedRunIsSilentForever(
      c: Config, a: Agent, now: int, x: AttemptId, lease: LeaseId, tr: seq<Input>, i: Input)
    requires Inv(c, a) && x in a.registry && LeaseOk(a, now, x, lease)
    requires Possible(c, Revoke(a, now, x, lease).agent, tr)
    requires var b := After(c, Revoke(a, now, x, lease).agent, tr); Allowed(b, i) && CallbackOf(i, a.registry[x])
    ensures var b := After(c, Revoke(a, now, x, lease).agent, tr);
            var o := React(c, b, i);
            && o.sent == [] && o.calls == []
            && o.agent == b.(runs := o.agent.runs)
            && o.agent.runs - {a.registry[x]} == b.runs - {a.registry[x]}
  {
    RevokeFences(a, c, now, x, lease);
    FencedAlways(c, Revoke(a, now, x, lease).agent, tr, a.registry[x]);
    FencedIsInert(c, After(c, Revoke(a, now, x, lease).agent, tr), i, a.registry[x]);
  }

  lemma AbandonedRunIsSilentForever(c: Config, a: Agent, now: int, x: AttemptId, tr: seq<Input>, i: Input)
    requires Inv(c, a) && x in a.registry
    requires Possible(c, Directed(c, a, now, Abandon(x)).agent, tr)
    requires var b := After(c, Directed(c, a, now, Abandon(x)).agent, tr); Allowed(b, i) && CallbackOf(i, a.registry[x])
    ensures var b := After(c, Directed(c, a, now, Abandon(x)).agent, tr);
            var o := React(c, b, i);
            && o.sent == [] && o.calls == []
            && o.agent == b.(runs := o.agent.runs)
            && o.agent.runs - {a.registry[x]} == b.runs - {a.registry[x]}
  {
    AbandonFences(a, c, now, x);
    FencedAlways(c, Directed(c, a, now, Abandon(x)).agent, tr, a.registry[x]);
    FencedIsInert(c, After(c, Directed(c, a, now, Abandon(x)).agent, tr), i, a.registry[x]);
  }

  /** An engine may answer `cancel` by finishing at once, inside `handleRevoke`. The
      state is the one reached when it finishes later. */
  lemma SynchronousCancelAgrees(c: Config, a: Agent, now: int, x: AttemptId, lease: LeaseId, o: Outcome)
    requires Inv(c, a) && Lookup(a, x).Some? && LeaseOk(a, now, x, lease)
    ensures var id := a.registry[x];
            var fenced := a.(runs := a.runs[id := a.runs[id].(fenced := true)]);
            var inside := OnDone(c, fenced, now, id, o).agent;
            && OnDone(c, fenced, now, id, o).sent == []
            && DeleteAttempt(inside.(registry := inside.registry - {x}, started := inside.started - {x}), x)
               == OnDone(c, Revoke(a, now, x, lease).agent, now, id, o).agent
  {
    assert LocalOk(c, a, x);
    var id := a.registry[x];
    var fenced := a.(runs := a.runs[id := a.runs[id].(fenced := true)]);
    var inside := OnDone(c, fenced, now, id, o).agent;
    var b := OnDone(c, Revoke(a, now, x, lease).agent, now, id, o).agent;
    assert inside.registry - {x} == b.registry;
    assert inside.started - {x} == b.started;
    assert inside.runs == b.runs;
  }

  /** Why `ack_pending` must name an attempt whose run has ended: it forgets the attempt
      but fences nothing, so what a live run emits next is still sent and stored, for an
      attempt that is in no table. */
  lemma AckPendingLeavesRunTalking(c: Config, a: Agent, now: int, x: AttemptId, ev: EngineEvent)
    requires Inv(c, a) && x in a.registry
    ensures var o := Directed(c, a, now, AckPending(x));
            && x !in o.agent.attempts && x !in o.agent.results && x !in o.agent.registry
            && o.sent == [] && o.calls == [] && o.agent.runs == a.runs && a.registry[x] in a.runs
            && var p := OnEvent(c, o.agent, a.registry[x], ev);
               && |p.sent| == 1 && p.sent[0].StreamEvent? && p.sent[0].attempt == x
               && RowsOf(p.agent.events, x) != [] && x !in p.agent.attempts
  {
    hide Inv, LocalOk, OnEvent, DeleteAttempt;
    LocalOf(c, a, x);
    Basics(c, a, x);
    var o := Directed(c, a, now, AckPending(x));
    assert o.agent.attempts == a.attempts - {x} && o.agent.runs == a.runs by { DeletedRow(a, x); }
    UnfencedTalks(c, o.agent, a.registry[x], ev);
  }

  lemma DeletedRow(a: Agent, x: AttemptId)
    ensures DeleteAttempt(a, x).attempts == a.attempts - {x} && DeleteAttempt(a, x).runs == a.runs
  {
    hide Dropped;
  }

  lemma UnfencedTalks(c: Config, a: Agent, id: RunId, ev: EngineEvent)
    requires id in a.runs && !a.runs[id].fenced
    ensures var p, x := OnEvent(c, a, id, ev), a.runs[id].attempt;
            && |p.sent| == 1 && p.sent[0].StreamEvent? && p.sent[0].attempt == x
            && RowsOf(p.agent.events, x) != [] && p.agent.attempts.Keys == a.attempts.Keys
  {
    hide OverCap, RowsOf, Bytes;
    AppendRows(a.events, NewRow(c, a.runs[id], ev), a.runs[id].attempt);
  }
}
