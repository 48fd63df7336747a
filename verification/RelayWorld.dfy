/** End to end: the agent, the relay and the connection between them, over every run
    with engine events at any time, disconnects that lose everything in flight,
    process restarts, reconnects with resume directives, and re-assignments of the same
    attempt id. */
module RelayWorld {
  import opened Options
  import opened JobTypes
  import opened EventTable
  import opened JobProtocol
  import opened JobInvariant
  import opened JobRuns
  import opened JobLeases
  import opened RelayLink

  // ---- the agent, as the relay's attempt `x` sees it ----

  ghost function EventsOf(log: seq<EventRow>): (r: seq<EngineEvent>)
    requires forall i :: 0 <= i < |log| ==> log[i].payload.StreamEvent?
    ensures |r| == |log|
    ensures forall i :: 0 <= i < |r| ==> r[i] == log[i].payload.event
  {
    if log == [] then [] else EventsOf(log[..|log| - 1]) + [log[|log| - 1].payload.event]
  }

  ghost function SeenAt(a: Agent, x: AttemptId): Seen
    requires x in a.attempts ==> AttemptOk(a, x)
  {
    if x !in a.attempts then NOTHING
    else
      var log, job := Log(a, x), a.attempts[x].job;
      assert forall i :: 0 <= i < |log| ==> LogRowOk(log[i], x, job, i + 1);
      Seen(true, a.attempts[x].lease,
           if Lookup(a, x).Some? then Lookup(a, x).value.prevLease else None,
           EventsOf(log), AckedCount(a, x))
  }

  lemma SeenFrame(c: Config, a: Agent, b: Agent, y: AttemptId, x: AttemptId)
    requires Inv(c, a) && Inv(c, b) && Elsewhere(a, b, y) && x != y
    ensures LocalOk(c, a, x) && LocalOk(c, b, x) && SeenAt(a, x) == SeenAt(b, x)
  {
    assert LocalOk(c, a, x) && AgreeAt(a, b, x);
    LocalFrame(c, a, b, y, x);
    if x in a.registry { assert RunAgrees(a, b, a.registry[x], y); }
  }

  lemma SeenOk(c: Config, a: Agent, x: AttemptId)
    requires Inv(c, a)
    ensures x in a.attempts ==> AttemptOk(a, x)
  {
    assert LocalOk(c, a, x);
  }

  // ---- the world ----

  datatype World = World(
    agent: Agent, online: bool, epoch: int,
    up: seq<Msg>, down: seq<Down>,
    jobs: map<AttemptId, RelayJob>, used: set<LeaseId>, synced: set<AttemptId>)

  const EMPTY_WORLD: World := World(EmptyAgent, false, -1, [], [], map[], {}, {})

  datatype Step =
    | Engine(i: Input)                       // an event or the end of a run
    | DeliverDown(now: int)                  // the agent handles the next message
    | DeliverUp                              // the relay handles the next message
    | Disconnect
    | NewProcess(now: int)
    | Connect(now: int, epoch: int, ds: seq<Directive>)
    | RelayAssign(m: AssignMsg)              // a fresh assignment
    | RelayIssue(x: AttemptId, lease: LeaseId) // a further lease for a current assignment
    | RelayTell(d: Down)                     // anything else the relay sends
    | RelayForget(x: AttemptId)              // the relay gives up its record

  function InputOf(d: Down, now: int): Input {
    match d
    case DAssign(m) => InAssign(now, m)
    case DStreamAck(x, lease, k) => InStreamAck(now, x, lease, k)
    case DResultAck(x, lease, digest) => InResultAck(now, x, lease, digest)
    case DGranted(x, lease) => InGranted(now, x, lease)
    case DCancel(x, lease, grace) => InCancel(now, x, lease, grace)
    case DRevoke(x, lease) => InRevoke(now, x, lease)
  }

  /** Attempts the directives drop: the relay closes its record before it sends them. */
  function Closed(ds: seq<Directive>): set<AttemptId> {
    set d | d in ds && (d.AckPending? || d.Abandon?) :: d.attempt
  }

  /** The attempts whose events the connection carries without a gap. */
  function Resumed(ds: seq<Directive>): set<AttemptId> {
    set d | d in ds && d.ResumeFrom? :: d.attempt
  }

  /** An attempt the relay resumes was reported by the agent, so it is accepted. */
  function Reported(jobs: map<AttemptId, RelayJob>, ds: seq<Directive>): map<AttemptId, RelayJob> {
    map x | x in jobs ::
      if exists d :: d in ds && d.attempt == x && (d.ResumeFrom? || d.ResendResult?)
      then jobs[x].(accepted := true) else jobs[x]
  }

  /** The relay resumes only what the agent's `hello` reported under a lease of the
      relay's current assignment, from no further than its own durable prefix. */
  ghost predicate ValidDirective(a: Agent, jobs: map<AttemptId, RelayJob>, d: Directive) {
    match d
    case ResumeFrom(x, k, lease) =>
      && x in a.attempts && x in jobs && a.attempts[x].lease in jobs[x].leases
      && k <= |jobs[x].log| && lease.Some? && lease.value in jobs[x].leases
    case ResendResult(x, lease) =>
      && x in a.attempts && x in jobs && a.attempts[x].lease in jobs[x].leases
      && lease.Some? && lease.value in jobs[x].leases
    case AckPending(x) => x !in a.registry && x !in jobs
    case Abandon(x) => x !in jobs
  }

  /** What the relay may send: under a lease it issued, an ack of at most its durable
      prefix, a grant only after it saw the attempt accepted. A revocation or a result
      ack ends its record of the assignment. */
  ghost predicate RelayMaySend(w: World, d: Down) {
    var x := About(d);
    && w.online && Bears(d) in w.used
    && x in w.jobs && Bears(d) in w.jobs[x].leases
    && (d.DStreamAck? ==> d.k <= |w.jobs[x].log|)
    && (d.DGranted? ==> w.jobs[x].accepted)
  }

  ghost predicate Enabled(w: World, s: Step) {
    match s
    case Engine(i) => (i.InEvent? || i.InDone?) && Allowed(w.agent, i)
    case DeliverDown(_) => w.online && w.down != []
    case DeliverUp => w.online && w.up != []
    case Disconnect => true
    case NewProcess(_) => true
    case Connect(_, epoch, ds) =>
      && !w.online && epoch > w.epoch
      && forall d :: d in ds ==> ValidDirective(w.agent, w.jobs - Closed(ds), d)
    case RelayAssign(m) => w.online && m.attempt !in w.jobs && m.lease !in w.used
    case RelayIssue(x, lease) => x in w.jobs && lease !in w.used
    case RelayTell(d) => RelayMaySend(w, d)
    case RelayForget(_) => true
  }

  /** `safeSend`: without an active client the message is dropped. */
  function Sent(w: World, o: Out): World {
    w.(agent := o.agent, up := if w.online then w.up + o.sent else w.up)
  }

  function Offline(w: World): World {
    w.(online := false, up := [], down := [], synced := {})
  }

  function Next(c: Config, w: World, s: Step): World
    requires s.Engine? ==> (s.i.InEvent? || s.i.InDone?) && s.i.id in w.agent.runs
    requires s.DeliverDown? ==> w.down != []
    requires s.DeliverUp? ==> w.up != []
  {
    match s
    case Engine(i) => Sent(w, React(c, w.agent, i))
    case DeliverDown(now) =>
      var d, x := w.down[0], About(w.down[0]);
      var v := Sent(w, React(c, w.agent, InputOf(d, now)));
      v.(down := w.down[1..],
         synced := if x !in w.agent.attempts && x in v.agent.attempts then w.synced + {x} else w.synced)
    case DeliverUp =>
      var m, x := w.up[0], AttemptOf(w.up[0]);
      w.(up := w.up[1..], jobs := if x in w.jobs then w.jobs[x := Receive(w.jobs[x], m)] else w.jobs)
    case Disconnect => Offline(w)
    case NewProcess(_) => Offline(w.(agent := Restart(w.agent)))
    case Connect(now, epoch, ds) =>
      var o := ApplyResume(c, w.agent, now, ds);
      w.(agent := o.agent, online := true, epoch := epoch, up := o.sent, down := [],
         jobs := Reported(w.jobs - Closed(ds), ds),
         synced := Resumed(ds))
    case RelayAssign(m) =>
      w.(jobs := w.jobs[m.attempt := RelayJob({m.lease}, false, [])], used := w.used + {m.lease},
         down := w.down + [DAssign(m)])
    case RelayIssue(x, lease) =>
      w.(jobs := if x in w.jobs then w.jobs[x := w.jobs[x].(leases := w.jobs[x].leases + {lease})] else w.jobs,
         used := w.used + {lease})
    case RelayTell(d) =>
      w.(down := w.down + [d], jobs := if d.DRevoke? || d.DResultAck? then w.jobs - {About(d)} else w.jobs)
    case RelayForget(x) => w.(jobs := w.jobs - {x})
  }

  function JobAt(w: World, x: AttemptId): Option<RelayJob> {
    if x in w.jobs then Some(w.jobs[x]) else None
  }

  ghost predicate LinkAt(c: Config, w: World, x: AttemptId)
    requires Inv(c, w.agent)
  {
    SeenOk(c, w.agent, x);
    Link(SeenAt(w.agent, x), x, w.up, w.down, w.used, JobAt(w, x), x in w.synced)
  }

  ghost predicate WorldInv(c: Config, w: World) {
    && Inv(c, w.agent)
    && (!w.online ==> w.up == [] && w.down == [] && w.synced == {})
    && (forall x: AttemptId :: LinkAt(c, w, x))
  }

  // ---- what one input does to the agent's record of its attempt ----

  lemma SeenAfterAssign(c: Config, a: Agent, now: int, m: AssignMsg)
    requires Inv(c, a)
    ensures var o, x := Assign(c, a, now, m), m.attempt;
            && Inv(c, o.agent)
            && (forall n :: n in o.sent ==> AttemptOf(n) == x && !n.StreamEvent?)
            && (x in a.attempts ==>
                  && o.agent == a
                  && forall n :: n in o.sent ==>
                       if n.JobAccept? then LeaseOf(n) == a.attempts[x].lease else LeaseOf(n) == m.lease)
            && (x !in a.attempts ==> forall n :: n in o.sent ==> LeaseOf(n) == m.lease)
            && (x !in a.attempts && x !in o.agent.attempts ==> o.agent == a && forall n :: n in o.sent ==> n.JobReject?)
  {
    InvAssign(c, a, now, m);
    LeaseAgreement(c, a, m.attempt);
    assert LocalOk(c, a, m.attempt);
    hide Inv, LocalOk;
  }

  lemma SeenCreated(c: Config, a: Agent, now: int, m: AssignMsg)
    requires Inv(c, a) && m.attempt !in a.attempts && m.attempt in Assign(c, a, now, m).agent.attempts
    ensures var b := Assign(c, a, now, m).agent;
            Inv(c, b) && AttemptOk(b, m.attempt) && SeenAt(b, m.attempt) == Seen(true, m.lease, None, [], 0)
  {
    InvAssign(c, a, now, m);
    var b := Assign(c, a, now, m).agent;
    SeenOk(c, b, m.attempt);
    assert LocalOk(c, a, m.attempt);
    assert Log(b, m.attempt) == [];
  }

  lemma SeenIs(c: Config, a: Agent, x: AttemptId)
    requires LocalOk(c, a, x)
    ensures x !in a.attempts ==> SeenAt(a, x) == NOTHING
    ensures x in a.attempts ==>
              && SeenAt(a, x).has && SeenAt(a, x).lease == a.attempts[x].lease
              && SeenAt(a, x).prev == (if Lookup(a, x).Some? then Lookup(a, x).value.prevLease else None)
              && SeenAt(a, x).acked == AckedCount(a, x)
              && |SeenAt(a, x).events| == |Log(a, x)|
  {
  }

  /** The record is as before but for lease, previous lease and acknowledged prefix. */
  lemma SeenTouched(c: Config, a: Agent, b: Agent, x: AttemptId)
    requires Inv(c, a) && Inv(c, b) && Touches(a, b, x)
    ensures LocalOk(c, a, x) && LocalOk(c, b, x)
    ensures SeenAt(b, x) == SeenAt(a, x).(lease := SeenAt(b, x).lease, prev := SeenAt(b, x).prev, acked := SeenAt(b, x).acked)
  {
    assert LocalOk(c, a, x) && LocalOk(c, b, x);
    if x in a.attempts {
      assert Log(b, x) == Log(a, x);
    }
  }

  lemma SeenAfterAck(c: Config, a: Agent, now: int, x: AttemptId, lease: LeaseId, k: nat)
    requires Inv(c, a)
    ensures var b := StreamAck(c, a, now, x, lease, k).agent;
            && Inv(c, b) && LocalOk(c, a, x) && LocalOk(c, b, x)
            && var s, t := SeenAt(a, x), SeenAt(b, x);
            && t == s.(acked := t.acked)
            && (t == s || (s.has && (lease == s.lease || s.prev == Some(lease)) && (t.acked <= s.acked || t.acked <= k)))
  {
    var b := StreamAck(c, a, now, x, lease, k).agent;
    InvStreamAck(c, a, now, x, lease, k);
    SeenTouched(c, a, b, x);
    Basics(c, a, x);
    SeenIs(c, a, x);
    SeenIs(c, b, x);
    if LeaseOk(a, now, x, lease) { AckedRows(c, a, x, k, x); }
    hide Inv, LocalOk, AttemptOk, SeenAt, Touches, RowsOf, Acked, OverCap;
  }

  lemma SeenAfterGrant(c: Config, a: Agent, now: int, x: AttemptId, lease: LeaseId)
    requires Inv(c, a)
    ensures var b := LeaseGranted(a, now, x, lease).agent;
            && Inv(c, b) && LocalOk(c, a, x) && LocalOk(c, b, x)
            && var s, t := SeenAt(a, x), SeenAt(b, x);
            t == s || (s.has && t == s.(lease := lease, prev := Some(s.lease)))
  {
    var b := LeaseGranted(a, now, x, lease).agent;
    InvLeaseGranted(c, a, now, x, lease);
    SeenTouched(c, a, b, x);
    Basics(c, a, x);
    SeenIs(c, a, x);
    SeenIs(c, b, x);
    hide Inv, LocalOk, AttemptOk, SeenAt, Touches, RowsOf;
  }

  lemma SeenAfterCancel(c: Config, a: Agent, now: int, x: AttemptId, lease: LeaseId, grace: nat)
    requires Inv(c, a)
    ensures var o := CancelJob(a, now, x, lease, grace);
            && Inv(c, o.agent) && LocalOk(c, a, x) && LocalOk(c, o.agent, x)
            && SeenAt(o.agent, x) == SeenAt(a, x)
            && (forall m :: m in o.sent ==> m.JobStatus? && m.attempt == x && x in a.attempts && m.lease == a.attempts[x].lease)
  {
    var b := CancelJob(a, now, x, lease, grace).agent;
    InvCancelJob(c, a, now, x, lease, grace);
    SeenTouched(c, a, b, x);
    Basics(c, a, x);
    SeenIs(c, a, x);
    SeenIs(c, b, x);
    hide Inv, LocalOk, AttemptOk, SeenAt, Touches, RowsOf, LeaseOk;
  }

  /** A result ack or a revocation either changes nothing or forgets the attempt, and
      the latter only under a lease the agent accepts. */
  lemma SeenAfterEnd(c: Config, a: Agent, i: Input)
    requires Inv(c, a) && (i.InResultAck? || i.InRevoke?)
    ensures var b, x := React(c, a, i).agent, i.x;
            && Inv(c, b) && LocalOk(c, a, x) && LocalOk(c, b, x)
            && var s := SeenAt(a, x);
            && React(c, a, i).sent == []
            && (b == a || (SeenAt(b, x) == NOTHING && s.has && (i.lease == s.lease || s.prev == Some(i.lease))))
  {
    hide Fence;
    InvReact(c, a, i);
    assert LocalOk(c, a, i.x);
    Basics(c, a, i.x);
    hide Inv, LocalOk, AttemptOk, RowsOf, Dropped;
  }

  lemma SeenAfterEvent(c: Config, a: Agent, id: RunId, ev: EngineEvent)
    requires Inv(c, a) && id in a.runs && a.runs[id].live
    ensures var o, x := OnEvent(c, a, id, ev), a.runs[id].attempt;
            && Inv(c, o.agent) && LocalOk(c, a, x) && LocalOk(c, o.agent, x)
            && var s, t := SeenAt(a, x), SeenAt(o.agent, x);
            || (o == Quiet(a))
            || (s.has && t == s.(events := s.events + [ev])
                && o.sent == [StreamEvent(a.runs[id].job, x, s.lease, |s.events| + 1, EventId(x, |s.events| + 1), ev)])
  {
    hide Log;
    var o, x := OnEvent(c, a, id, ev), a.runs[id].attempt;
    InvOnEvent(c, a, id, ev);
    assert LocalOk(c, a, x) && LocalOk(c, o.agent, x) && RunOk(a, id);
    if !a.runs[id].fenced {
      EventSteps(c, a, id, ev);
      var row := NewRow(c, a.runs[id], ev);
      assert o.sent == [row.payload];
      EventLocal(c, a, id, row, o.agent);
      SeenAppended(c, a, o.agent, x, row);
      hide Inv, OnEvent, EventStep, LocalOk, RowsOf;
    }
  }

  lemma SeenAppended(c: Config, a: Agent, b: Agent, x: AttemptId, row: EventRow)
    requires LocalOk(c, a, x) && LocalOk(c, b, x) && x in a.attempts && x in b.attempts
    requires Log(b, x) == Log(a, x) + [row] && RowsOf(b.events, x) == RowsOf(a.events, x) + [row]
    requires b.attempts[x].lease == a.attempts[x].lease
    requires Lookup(a, x).Some? && Lookup(b, x).Some? && Lookup(b, x).value.prevLease == Lookup(a, x).value.prevLease
    requires row.payload.StreamEvent?
    ensures SeenAt(b, x) == SeenAt(a, x).(events := SeenAt(a, x).events + [row.payload.event])
  {
    hide RowsOf;
    var s, t := SeenAt(a, x), SeenAt(b, x);
    forall i | 0 <= i < |t.events| ensures t.events[i] == (s.events + [row.payload.event])[i] {
      assert Log(b, x)[i] == (Log(a, x) + [row])[i];
    }
  }

  lemma SeenAfterDone(c: Config, a: Agent, now: int, id: RunId, o: Outcome)
    requires Inv(c, a) && id in a.runs && a.runs[id].live
    ensures var p, x := OnDone(c, a, now, id, o), a.runs[id].attempt;
            && Inv(c, p.agent) && LocalOk(c, a, x) && LocalOk(c, p.agent, x)
            && var s, t := SeenAt(a, x), SeenAt(p.agent, x);
            && t == s.(prev := t.prev) && (t.prev == s.prev || t.prev == None)
            && (forall m :: m in p.sent ==> m.JobResult? && AttemptOf(m) == x && s.has && LeaseOf(m) == s.lease)
  {
    hide Window, LogOk, TerminalStatusOf, LogAgrees, ResultOf, EventsOf, RowsOf, RunAgrees, AgreeAt;
    var p, x := OnDone(c, a, now, id, o), a.runs[id].attempt;
    InvOnDone(c, a, now, id, o);
    assert LocalOk(c, a, x) && LocalOk(c, p.agent, x) && RunOk(a, id);
    if x in a.attempts { assert Log(p.agent, x) == Log(a, x); }
  }

  // ---- the agent handles a message of the relay ----

  /** After the agent handled `d`, the link of its attempt holds again. */
  lemma DeliveredAt(c: Config, w: World, now: int)
    requires WorldInv(c, w) && w.online && w.down != []
    ensures var v := Next(c, w, DeliverDown(now)); Inv(c, v.agent) && LinkAt(c, v, About(w.down[0]))
  {
    InvReact(c, w.agent, InputOf(w.down[0], now));
    hide Next, Inv, LinkAt, WorldInv;
    match w.down[0]
    case DAssign(_) => DeliveredAssign(c, w, now);
    case DStreamAck(_, _, _) => DeliveredAck(c, w, now);
    case DGranted(_, _) => DeliveredGrant(c, w, now);
    case DCancel(_, _, _) => DeliveredCancel(c, w, now);
    case DResultAck(_, _, _) => DeliveredEnd(c, w, now);
    case DRevoke(_, _) => DeliveredEnd(c, w, now);
  }

  lemma DeliveredAck(c: Config, w: World, now: int)
    requires WorldInv(c, w) && w.online && w.down != [] && w.down[0].DStreamAck?
    ensures var v := Next(c, w, DeliverDown(now)); Inv(c, v.agent) && LinkAt(c, v, About(w.down[0]))
  {
    var d, x := w.down[0], About(w.down[0]);
    var v := Next(c, w, DeliverDown(now));
    assert LinkAt(c, w, x);
    SeenAfterAck(c, w.agent, now, x, d.lease, d.k);
    var s, t, job, synced := SeenAt(w.agent, x), SeenAt(v.agent, x), JobAt(w, x), x in w.synced;
    NextMessage(s, x, w.up, w.down, w.used, job, synced);
    hide Link, Inv, StreamAck, WorldInv, AttemptOk, LocalOk, SeenAt;
    LinkTake(s, x, w.up, w.down, w.used, job, synced);
    assert w.up + [] == w.up;
    if t != s { LinkAcked(s, x, w.up, w.down[1..], w.used, job, synced, t.acked, d.k); }
  }

  lemma DeliveredGrant(c: Config, w: World, now: int)
    requires WorldInv(c, w) && w.online && w.down != [] && w.down[0].DGranted?
    ensures var v := Next(c, w, DeliverDown(now)); Inv(c, v.agent) && LinkAt(c, v, About(w.down[0]))
  {
    var d, x := w.down[0], About(w.down[0]);
    var v := Next(c, w, DeliverDown(now));
    assert LinkAt(c, w, x);
    SeenAfterGrant(c, w.agent, now, x, d.lease);
    var s, t, job, synced := SeenAt(w.agent, x), SeenAt(v.agent, x), JobAt(w, x), x in w.synced;
    NextMessage(s, x, w.up, w.down, w.used, job, synced);
    hide Link, Inv, LeaseGranted, WorldInv, AttemptOk, LocalOk, SeenAt;
    LinkTake(s, x, w.up, w.down, w.used, job, synced);
    assert w.up + [] == w.up;
    if t != s { LinkRotate(s, x, w.up, w.down[1..], w.used, job, synced, t); }
  }

  lemma DeliveredCancel(c: Config, w: World, now: int)
    requires WorldInv(c, w) && w.online && w.down != [] && w.down[0].DCancel?
    ensures var v := Next(c, w, DeliverDown(now)); Inv(c, v.agent) && LinkAt(c, v, About(w.down[0]))
  {
    var d, x := w.down[0], About(w.down[0]);
    assert LinkAt(c, w, x) && d in w.down;
    SeenAfterCancel(c, w.agent, now, x, d.lease, d.grace);
    var s, job, synced := SeenAt(w.agent, x), JobAt(w, x), x in w.synced;
    NextMessage(s, x, w.up, w.down, w.used, job, synced);
    SeenIs(c, w.agent, x);
    hide Link, Inv, SeenAt, CancelJob, WorldInv, AttemptOk, LocalOk;
    LinkTake(s, x, w.up, w.down, w.used, job, synced);
    LinkSend(s, x, w.up, w.down[1..], w.used, job, synced, CancelJob(w.agent, now, x, d.lease, d.grace).sent);
  }

  lemma DeliveredEnd(c: Config, w: World, now: int)
    requires WorldInv(c, w) && w.online && w.down != [] && (w.down[0].DResultAck? || w.down[0].DRevoke?)
    ensures var v := Next(c, w, DeliverDown(now)); Inv(c, v.agent) && LinkAt(c, v, About(w.down[0]))
  {
    var d, x := w.down[0], About(w.down[0]);
    var v := Next(c, w, DeliverDown(now));
    assert LinkAt(c, w, x);
    SeenAfterEnd(c, w.agent, InputOf(d, now));
    SeenOk(c, w.agent, x);
    SeenOk(c, v.agent, x);
    var s, t, job, synced := SeenAt(w.agent, x), SeenAt(v.agent, x), JobAt(w, x), x in w.synced;
    NextMessage(s, x, w.up, w.down, w.used, job, synced);
    hide Link, Inv, React, WorldInv, AttemptOk, LocalOk, SeenAt;
    LinkTake(s, x, w.up, w.down, w.used, job, synced);
    assert w.up + [] == w.up;
    if v.agent != w.agent { LinkForget(s, x, w.up, w.down[1..], w.used, job, synced); }
  }

  lemma DeliveredAssign(c: Config, w: World, now: int)
    requires WorldInv(c, w) && w.online && w.down != [] && w.down[0].DAssign?
    ensures var v := Next(c, w, DeliverDown(now)); Inv(c, v.agent) && LinkAt(c, v, About(w.down[0]))
  {
    var d, x := w.down[0], About(w.down[0]);
    var v := Next(c, w, DeliverDown(now));
    var sent := Assign(c, w.agent, now, d.m).sent;
    assert LinkAt(c, w, x) && d in w.down;
    SeenAfterAssign(c, w.agent, now, d.m);
    SeenOk(c, w.agent, x);
    SeenOk(c, v.agent, x);
    var s, job, synced := SeenAt(w.agent, x), JobAt(w, x), x in w.synced;
    if x !in w.agent.attempts && x in v.agent.attempts {
      SeenCreated(c, w.agent, now, d.m);
      hide Inv, Assign, WorldInv, AttemptOk;
      LinkCreate(x, w.up, w.down, w.used, job, synced, sent);
    } else {
      hide Inv, Assign, WorldInv, AttemptOk;
      LinkTake(s, x, w.up, w.down, w.used, job, synced);
      LinkSend(s, x, w.up, w.down[1..], w.used, job, synced, sent);
    }
  }

  /** What an input sends is about the attempt it is about. */
  lemma SentAboutSubject(c: Config, a: Agent, i: Input)
    requires Inv(c, a) && Allowed(a, i) && !i.InResume? && !i.InRestart?
    ensures forall m :: m in React(c, a, i).sent ==> AttemptOf(m) == Subject(a, i)
  {
    if i.InCancel? { assert LocalOk(c, a, i.x); }
    hide Inv, LocalOk, RowsOf, Acked, Dropped, Bytes, OverCap, LeaseOk, Admit;
  }

  lemma LinkElsewhere(c: Config, w: World, i: Input, y: AttemptId)
    requires WorldInv(c, w) && Allowed(w.agent, i) && !i.InResume? && !i.InRestart? && y != Subject(w.agent, i)
    ensures var v := Sent(w, React(c, w.agent, i)); Inv(c, v.agent) && LinkAt(c, v, y)
  {
    var o := React(c, w.agent, i);
    InvReact(c, w.agent, i);
    SentAboutSubject(c, w.agent, i);
    SeenFrame(c, w.agent, o.agent, Subject(w.agent, i), y);
    assert LinkAt(c, w, y);
    hide React, Inv;
    LinkSend(SeenAt(w.agent, y), y, w.up, w.down, w.used, JobAt(w, y), y in w.synced, o.sent);
  }

  lemma StepDeliverDown(c: Config, w: World, now: int)
    requires WorldInv(c, w) && w.online && w.down != []
    ensures WorldInv(c, Next(c, w, DeliverDown(now)))
  {
    var d, x := w.down[0], About(w.down[0]);
    var v := Next(c, w, DeliverDown(now));
    InvReact(c, w.agent, InputOf(d, now));
    forall y: AttemptId ensures LinkAt(c, v, y) {
      if y != x { DeliveredElsewhere(c, w, now, y); } else { DeliveredAt(c, w, now); }
    }
  }

  lemma DeliveredElsewhere(c: Config, w: World, now: int, y: AttemptId)
    requires WorldInv(c, w) && w.online && w.down != [] && y != About(w.down[0])
    ensures var v := Next(c, w, DeliverDown(now)); Inv(c, v.agent) && LinkAt(c, v, y)
  {
    var i := InputOf(w.down[0], now);
    LinkElsewhere(c, w, i, y);
    var u := Sent(w, React(c, w.agent, i));
    SeenOk(c, u.agent, y);
    hide React, Inv, WorldInv, SeenAt;
    LinkTake(SeenAt(u.agent, y), y, u.up, u.down, u.used, JobAt(u, y), y in u.synced);
  }

  // ---- the engine ----

  lemma StepEngine(c: Config, w: World, i: Input)
    requires WorldInv(c, w) && Enabled(w, Engine(i))
    ensures WorldInv(c, Next(c, w, Engine(i)))
  {
    var v, x := Next(c, w, Engine(i)), Subject(w.agent, i);
    InvReact(c, w.agent, i);
    forall y: AttemptId ensures Inv(c, v.agent) && LinkAt(c, v, y) {
      if y != x { LinkElsewhere(c, w, i, y); } else { EngineAt(c, w, i); }
    }
  }

  lemma EngineAt(c: Config, w: World, i: Input)
    requires WorldInv(c, w) && Enabled(w, Engine(i))
    ensures var v := Next(c, w, Engine(i)); Inv(c, v.agent) && LinkAt(c, v, Subject(w.agent, i))
  {
    var x := Subject(w.agent, i);
    assert LinkAt(c, w, x);
    SeenOk(c, w.agent, x);
    var s, job, synced := SeenAt(w.agent, x), JobAt(w, x), x in w.synced;
    assert w.up + [] == w.up;
    if i.InEvent? {
      var o := OnEvent(c, w.agent, i.id, i.ev);
      SeenAfterEvent(c, w.agent, i.id, i.ev);
      hide OnEvent, Inv, AttemptOk, LocalOk, SeenAt, WorldInv;
      if o != Quiet(w.agent) { LinkEmit(s, x, w.up, w.down, w.used, job, synced, o.sent[0], w.online); }
    } else {
      var o := OnDone(c, w.agent, i.now, i.id, i.o);
      SeenAfterDone(c, w.agent, i.now, i.id, i.o);
      hide OnDone, Inv, AttemptOk, LocalOk, SeenAt, WorldInv;
      LinkRotate(s, x, w.up, w.down, w.used, job, synced, SeenAt(o.agent, x));
      LinkSend(SeenAt(o.agent, x), x, w.up, w.down, w.used, job, synced, o.sent);
    }
  }

  // ---- the relay and the connection ----

  lemma StepDeliverUp(c: Config, w: World)
    requires WorldInv(c, w) && w.online && w.up != []
    ensures WorldInv(c, Next(c, w, DeliverUp))
  {
    var v := Next(c, w, DeliverUp);
    hide Inv;
    forall x: AttemptId ensures LinkAt(c, v, x) {
      SeenOk(c, w.agent, x);
      assert LinkAt(c, w, x);
      hide LocalOk, Log;
      LinkReceive(SeenAt(w.agent, x), x, w.up, w.down, w.used, JobAt(w, x), x in w.synced);
    }
  }

  lemma OfflineInv(c: Config, w: World)
    requires Inv(c, w.agent) && forall x: AttemptId :: LinkAt(c, w, x)
    ensures WorldInv(c, Offline(w))
  {
    hide Inv;
    forall x: AttemptId ensures LinkAt(c, Offline(w), x) {
      SeenOk(c, w.agent, x);
      assert LinkAt(c, w, x);
      LinkDisconnect(SeenAt(w.agent, x), x, w.up, w.down, w.used, JobAt(w, x), x in w.synced);
    }
  }

  lemma StepNewProcess(c: Config, w: World, now: int)
    requires WorldInv(c, w)
    ensures WorldInv(c, Next(c, w, NewProcess(now)))
  {
    InvRestart(c, w.agent);
    var v := w.(agent := Restart(w.agent));
    forall x: AttemptId ensures LinkAt(c, v, x) {
      assert LinkAt(c, w, x) && LocalOk(c, w.agent, x) && LocalOk(c, v.agent, x);
      var s, t := SeenAt(w.agent, x), SeenAt(v.agent, x);
      assert t == s.(prev := None);
      hide Inv, LocalOk, SeenAt;
      LinkRotate(s, x, w.up, w.down, w.used, JobAt(w, x), x in w.synced, t);
    }
    OfflineInv(c, v);
  }

  lemma StepRelay(c: Config, w: World, s: Step)
    requires WorldInv(c, w) && Enabled(w, s) && (s.RelayAssign? || s.RelayIssue? || s.RelayTell? || s.RelayForget?)
    ensures WorldInv(c, Next(c, w, s))
  {
    var v := Next(c, w, s);
    hide Inv;
    forall x: AttemptId ensures LinkAt(c, v, x) {
      SeenOk(c, w.agent, x);
      assert LinkAt(c, w, x);
      RelayAt(c, w, s, SeenAt(w.agent, x), x);
    }
  }

  lemma RelayAt(c: Config, w: World, s: Step, seen: Seen, x: AttemptId)
    requires Enabled(w, s) && (s.RelayAssign? || s.RelayIssue? || s.RelayTell? || s.RelayForget?)
    requires Link(seen, x, w.up, w.down, w.used, JobAt(w, x), x in w.synced)
    ensures var v := Next(c, w, s);
            Link(seen, x, v.up, v.down, v.used, JobAt(v, x), x in v.synced)
  {
    var job, synced := JobAt(w, x), x in w.synced;
    match s
    case RelayAssign(m) =>
      if m.attempt == x {
        LinkAssign(seen, x, w.up, w.down, w.used, synced, m.lease);
        LinkTell(seen, x, w.up, w.down, w.used + {m.lease}, Some(RelayJob({m.lease}, false, [])), synced, DAssign(m));
      } else {
        LinkMoreUsed(seen, x, w.up, w.down, w.used, job, synced, m.lease);
        LinkTell(seen, x, w.up, w.down, w.used + {m.lease}, job, synced, DAssign(m));
      }
    case RelayIssue(y, lease) =>
      if x == y { LinkIssue(seen, x, w.up, w.down, w.used, w.jobs[x], synced, lease); }
      else { LinkMoreUsed(seen, x, w.up, w.down, w.used, job, synced, lease); }
    case RelayTell(d) =>
      var kept := if About(d) == x && (d.DRevoke? || d.DResultAck?) then None else job;
      LinkTell(seen, x, w.up, w.down, w.used, kept, synced, d);
    case RelayForget(_) =>
  }

  // ---- reconnecting ----

  /** The record after a resume directive: another lease, the same history. */
  lemma SeenAdopted(c: Config, a: Agent, now: int, x: AttemptId, lease: LeaseId)
    requires Inv(c, a) && x in a.attempts
    ensures var b := Adopted(a, now, x, Some(lease));
            && Inv(c, b) && Elsewhere(a, b, x) && LocalOk(c, a, x) && LocalOk(c, b, x) && x in b.attempts
            && var s, t := SeenAt(a, x), SeenAt(b, x);
            && t == s.(lease := lease, prev := t.prev)
            && (t.prev == s.prev || t.prev == Some(s.lease))
  {
    var b := Adopted(a, now, x, Some(lease));
    InvAdopted(c, a, now, x, Some(lease));
    SeenTouched(c, a, b, x);
    Basics(c, a, x);
    AdoptedKeeps(a, now, x, Some(lease));
    AdoptedCurrent(a, now, x, lease);
    hide Inv, LocalOk, AttemptOk, Touches, RowsOf, Elsewhere;
  }

  lemma SeenResumed(c: Config, a: Agent, x: AttemptId, k: nat)
    requires Inv(c, a) && x in a.attempts
    ensures LocalOk(c, a, x) && 0 <= ResumePoint(a, x, k) <= |SeenAt(a, x).events|
    ensures ResumePoint(a, x, k) <= k || ResumePoint(a, x, k) <= SeenAt(a, x).acked
    ensures Resumes(Payloads(EventsAfter(a.events, x, k), Some(a.attempts[x].lease)), x, a.attempts[x].lease,
                    ResumePoint(a, x, k), SeenAt(a, x))
  {
    assert LocalOk(c, a, x);
    ResumedRows(c, a, x, k);
    var s := SeenAt(a, x);
    ResumeMessages(Log(a, x), x, a.attempts[x].job, ResumePoint(a, x, k), a.attempts[x].lease, s);
    hide Inv, LocalOk, EventsAfter, RowsOf, Resumes, LogOk;
  }

  lemma ResumeMessages(log: seq<EventRow>, x: AttemptId, job: JobId, from: nat, lease: LeaseId, s: Seen)
    requires from <= |log| && LogOk(log, x, job) && |s.events| == |log|
    requires forall i :: 0 <= i < |log| ==> log[i].payload.StreamEvent? && s.events[i] == log[i].payload.event
    ensures Resumes(Payloads(log[from..], Some(lease)), x, lease, from, s)
  {
    var sent := Payloads(log[from..], Some(lease));
    forall i | 0 <= i < |sent|
      ensures sent[i].StreamEvent? && sent[i].attempt == x && sent[i].lease == lease
      ensures sent[i].seqNo == from + i + 1 && sent[i].event == s.events[from + i]
    {
      assert LogRowOk(log[from + i], x, job, from + i + 1);
    }
  }

  /** The link of `x` while the directives are being applied. */
  ghost predicate Applying(
      c: Config, a: Agent, up: seq<Msg>, used: set<LeaseId>, jobs: map<AttemptId, RelayJob>, synced: set<AttemptId>, x: AttemptId)
    requires Inv(c, a)
  {
    SeenOk(c, a, x);
    && Link(SeenAt(a, x), x, up, [], used, if x in jobs then Some(jobs[x]) else None, x in synced)
    && (x !in synced ==> forall m :: m in up ==> !(m.StreamEvent? && m.attempt == x))
  }

  lemma ApplyOther(
      c: Config, a: Agent, b: Agent, y: AttemptId, up: seq<Msg>, sent: seq<Msg>,
      used: set<LeaseId>, jobs: map<AttemptId, RelayJob>, synced: set<AttemptId>, x: AttemptId)
    requires Inv(c, a) && Inv(c, b) && Elsewhere(a, b, y) && x != y
    requires Applying(c, a, up, used, jobs, synced, x)
    requires forall m :: m in sent ==> AttemptOf(m) == y
    ensures Applying(c, b, up + sent, used, jobs, synced, x)
    ensures Applying(c, b, up + sent, used, jobs, synced + {y}, x)
  {
    SeenFrame(c, a, b, y, x);
    hide Inv, SeenAt, Elsewhere, LocalOk;
    LinkSend(SeenAt(a, x), x, up, [], used, if x in jobs then Some(jobs[x]) else None, x in synced, sent);
  }

  lemma ApplyResumeFrom(
      c: Config, a: Agent, now: int, d: Directive, up: seq<Msg>,
      used: set<LeaseId>, jobs: map<AttemptId, RelayJob>, synced: set<AttemptId>)
    requires Inv(c, a) && d.ResumeFrom? && ValidDirective(a, jobs, d)
    requires Applying(c, a, up, used, jobs, synced, d.attempt)
    ensures var o, x := Directed(c, a, now, d), d.attempt;
            && Inv(c, o.agent) && Elsewhere(a, o.agent, x)
            && Applying(c, o.agent, up + o.sent, used, jobs, synced + {x}, x)
            && (forall m :: m in o.sent ==> AttemptOf(m) == x)
  {
    hide Fence, UpOk, EventsOf, LeasesUsed, AttemptOk, RunAgrees, RegisteredOk, Restamp, AgreeAt, ResultOk;
    var o, x, lease := Directed(c, a, now, d), d.attempt, d.newLease.value;
    SeenAdopted(c, a, now, x, lease);
    SeenResumed(c, o.agent, x, d.after);
    AdoptedCurrent(a, now, x, lease);
    var s, t, j := SeenAt(a, x), SeenAt(o.agent, x), jobs[x];
    var from := ResumePoint(o.agent, x, d.after);
    hide Inv, SeenAt, LocalOk, Adopted, EventsAfter, Elsewhere;
    LinkRotate(s, x, up, [], used, Some(j), x in synced, t);
    LinkResume(t, x, up, [], used, j, x in synced, o.sent, lease, from);
    forall m | m in o.sent ensures AttemptOf(m) == x {
      var i :| 0 <= i < |o.sent| && o.sent[i] == m;
    }
  }

  lemma ApplyResend(
      c: Config, a: Agent, now: int, d: Directive, up: seq<Msg>,
      used: set<LeaseId>, jobs: map<AttemptId, RelayJob>, synced: set<AttemptId>)
    requires Inv(c, a) && d.ResendResult? && ValidDirective(a, jobs, d)
    requires Applying(c, a, up, used, jobs, synced, d.attempt)
    ensures var o, x := Directed(c, a, now, d), d.attempt;
            && Inv(c, o.agent) && Elsewhere(a, o.agent, x)
            && Applying(c, o.agent, up + o.sent, used, jobs, synced, x)
            && (forall m :: m in o.sent ==> AttemptOf(m) == x)
  {
    var o, x, lease := Directed(c, a, now, d), d.attempt, d.newLease.value;
    InvResend(c, a, now, x, d.newLease);
    SeenAdopted(c, a, now, x, lease);
    SeenOk(c, o.agent, x);
    var a1 := Adopted(a, now, x, d.newLease);
    ResendShape(c, a, now, d);
    hide Directed;
    ResultsUnseen(c, a1, o.agent, x);
    AdoptedCurrent(a, now, x, lease);
    var s, t, j := SeenAt(a, x), SeenAt(a1, x), jobs[x];
    assert x in a1.results ==> ResultOk(c, a1, x);
    hide Inv, SeenAt, LocalOk, Adopted, Elsewhere;
    LinkRotate(s, x, up, [], used, Some(j), x in synced, t);
    hide Link;
    LinkSend(t, x, up, [], used, Some(j), x in synced, o.sent);
  }

  lemma ResendShape(c: Config, a: Agent, now: int, d: Directive)
    requires d.ResendResult? && d.newLease.Some?
    ensures var o, a1 := Directed(c, a, now, d), Adopted(a, now, d.attempt, d.newLease);
            && o.agent == a1.(results := o.agent.results, nextId := o.agent.nextId)
            && forall m :: m in o.sent ==>
                 m.JobResult? && d.attempt in a1.results && LeaseOf(m) == d.newLease.value
                 && AttemptOf(m) == a1.results[d.attempt].payload.body.attempt
  {
    hide Adopted;
  }

  lemma ResultsUnseen(c: Config, a: Agent, b: Agent, x: AttemptId)
    requires LocalOk(c, a, x) && LocalOk(c, b, x)
    requires b == a.(results := b.results, nextId := b.nextId)
    ensures SeenAt(a, x) == SeenAt(b, x)
  {
    if x in a.attempts { assert Log(a, x) == Log(b, x); }
  }

  lemma ApplyDrop(
      c: Config, a: Agent, now: int, d: Directive, up: seq<Msg>,
      used: set<LeaseId>, jobs: map<AttemptId, RelayJob>, synced: set<AttemptId>)
    requires Inv(c, a) && (d.AckPending? || d.Abandon?) && ValidDirective(a, jobs, d)
    requires Applying(c, a, up, used, jobs, synced, d.attempt)
    ensures var o, x := Directed(c, a, now, d), d.attempt;
            && Inv(c, o.agent) && Elsewhere(a, o.agent, x) && o.sent == []
            && Applying(c, o.agent, up, used, jobs, synced, x)
  {
    var o, x := Directed(c, a, now, d), d.attempt;
    InvDirected(c, a, now, d);
    assert x !in o.agent.attempts;
    SeenOk(c, a, x);
    var s := SeenAt(a, x);
    hide Inv, Directed, Elsewhere;
    LinkForget(s, x, up, [], used, None, x in synced);
  }

  /** One directive: the links of all attempts hold again. */
  lemma ApplyOne(
      c: Config, a: Agent, now: int, d: Directive, up: seq<Msg>,
      used: set<LeaseId>, jobs: map<AttemptId, RelayJob>, synced: set<AttemptId>)
    requires Inv(c, a) && ValidDirective(a, jobs, d)
    requires forall x: AttemptId :: Applying(c, a, up, used, jobs, synced, x)
    ensures var o := Directed(c, a, now, d);
            var up', synced' := up + o.sent, if d.ResumeFrom? then synced + {d.attempt} else synced;
            && Inv(c, o.agent)
            && forall x: AttemptId :: Applying(c, o.agent, up', used, jobs, synced', x)
  {
    var o, y := Directed(c, a, now, d), d.attempt;
    var synced' := if d.ResumeFrom? then synced + {y} else synced;
    assert Applying(c, a, up, used, jobs, synced, y);
    if d.ResumeFrom? { ApplyResumeFrom(c, a, now, d, up, used, jobs, synced); }
    else if d.ResendResult? { ApplyResend(c, a, now, d, up, used, jobs, synced); }
    else { ApplyDrop(c, a, now, d, up, used, jobs, synced); assert up + o.sent == up; }
    hide Directed, Inv, Applying, Elsewhere;
    forall x: AttemptId ensures Applying(c, o.agent, up + o.sent, used, jobs, synced', x) {
      if x != y { ApplyOther(c, a, o.agent, y, up, o.sent, used, jobs, synced, x); }
    }
  }

  /** Applying one directive leaves the other directives valid. */
  lemma ValidKept(c: Config, a: Agent, now: int, d: Directive, jobs: map<AttemptId, RelayJob>, e: Directive)
    requires Inv(c, a) && ValidDirective(a, jobs, d) && ValidDirective(a, jobs, e)
    ensures ValidDirective(Directed(c, a, now, d).agent, jobs, e)
  {
    var b, x := Directed(c, a, now, d).agent, d.attempt;
    InvDirected(c, a, now, d);
    if e.attempt != x {
      assert AgreeAt(a, b, e.attempt);
    } else if d.ResumeFrom? || d.ResendResult? {
      AdoptedKeeps(a, now, x, d.newLease);
      AdoptedCurrent(a, now, x, d.newLease.value);
      hide Adopted, Inv, EventsAfter, Payloads, Elsewhere;
    }
  }

  lemma {:induction false} ApplyAll(
      c: Config, a: Agent, now: int, ds: seq<Directive>, used: set<LeaseId>, jobs: map<AttemptId, RelayJob>)
    requires Inv(c, a) && (forall d :: d in ds ==> ValidDirective(a, jobs, d))
    requires forall x: AttemptId :: Applying(c, a, [], used, jobs, {}, x)
    ensures var o := ApplyResume(c, a, now, ds);
            && Inv(c, o.agent)
            && (forall x: AttemptId :: Applying(c, o.agent, o.sent, used, jobs, Resumed(ds), x))
            && (forall e :: ValidDirective(a, jobs, e) ==> ValidDirective(o.agent, jobs, e))
  {
    hide Directed, Inv, Applying, ValidDirective;
    if ds == [] {
      assert Resumed(ds) == {};
    } else {
      var init, d := ds[..|ds| - 1], ds[|ds| - 1];
      ApplyAll(c, a, now, init, used, jobs);
      var o := ApplyResume(c, a, now, init);
      ApplyOne(c, o.agent, now, d, o.sent, used, jobs, Resumed(init));
      assert Resumed(ds) == if d.ResumeFrom? then Resumed(init) + {d.attempt} else Resumed(init);
      forall e | ValidDirective(a, jobs, e)
        ensures ValidDirective(ApplyResume(c, a, now, ds).agent, jobs, e)
      {
        ValidKept(c, o.agent, now, d, jobs, e);
      }
    }
  }

  lemma StepConnect(c: Config, w: World, now: int, epoch: int, ds: seq<Directive>)
    requires WorldInv(c, w) && Enabled(w, Connect(now, epoch, ds))
    ensures WorldInv(c, Next(c, w, Connect(now, epoch, ds)))
  {
    var a, open := w.agent, w.jobs - Closed(ds);
    var jobs := Reported(open, ds);
    forall d | d in ds ensures ValidDirective(a, jobs, d) {
      assert ValidDirective(a, open, d);
    }
    forall x: AttemptId ensures Applying(c, a, [], w.used, jobs, {}, x) {
      SeenOk(c, a, x);
      assert LinkAt(c, w, x);
      hide Inv;
      assert forall d :: d in ds ==> ValidDirective(a, open, d);
    }
    ApplyAll(c, a, now, ds, w.used, jobs);
    var v := Next(c, w, Connect(now, epoch, ds));
    hide Inv, ApplyResume, Reported, Closed, Resumed;
    forall x: AttemptId ensures LinkAt(c, v, x) {
      assert Applying(c, v.agent, v.up, v.used, v.jobs, v.synced, x);
    }
  }

  // ---- every run ----

  lemma WorldStep(c: Config, w: World, s: Step)
    requires WorldInv(c, w) && Enabled(w, s)
    ensures WorldInv(c, Next(c, w, s))
  {
    hide WorldInv, Next;
    match s
    case Engine(i) => StepEngine(c, w, i);
    case DeliverDown(now) => StepDeliverDown(c, w, now);
    case DeliverUp => StepDeliverUp(c, w);
    case Disconnect => StepDisconnect(c, w);
    case NewProcess(now) => StepNewProcess(c, w, now);
    case Connect(now, epoch, ds) => StepConnect(c, w, now, epoch, ds);
    case RelayAssign(_) => StepRelay(c, w, s);
    case RelayIssue(_, _) => StepRelay(c, w, s);
    case RelayTell(_) => StepRelay(c, w, s);
    case RelayForget(_) => StepRelay(c, w, s);
  }

  lemma StepDisconnect(c: Config, w: World)
    requires WorldInv(c, w)
    ensures WorldInv(c, Next(c, w, Disconnect))
  {
    OfflineInv(c, w);
  }

  ghost predicate Reaches(c: Config, w: World, steps: seq<Step>)
    decreases |steps|
  {
    steps == [] || (Enabled(w, steps[0]) && Reaches(c, Next(c, w, steps[0]), steps[1..]))
  }

  ghost function Reached(c: Config, w: World, steps: seq<Step>): World
    requires Reaches(c, w, steps)
    decreases |steps|
  {
    if steps == [] then w else Reached(c, Next(c, w, steps[0]), steps[1..])
  }

  lemma {:induction false} WorldAlways(c: Config, w: World, steps: seq<Step>)
    requires WorldInv(c, w) && Reaches(c, w, steps)
    ensures WorldInv(c, Reached(c, w, steps))
    decreases |steps|
  {
    hide WorldInv, Next;
    if steps != [] {
      WorldStep(c, w, steps[0]);
      WorldAlways(c, Next(c, w, steps[0]), steps[1..]);
    }
  }

  lemma WorldStart(c: Config)
    ensures WorldInv(c, EMPTY_WORLD)
  {
    InvEmpty(c);
    forall x: AttemptId ensures LinkAt(c, EMPTY_WORLD, x) { }
  }

  /** What the engine emitted for the attempt, in order. */
  ghost function Produced(a: Agent, x: AttemptId): seq<EngineEvent>
    requires x in a.attempts && AttemptOk(a, x)
  {
    SeenAt(a, x).events
  }

  /** The relay's record of `x` is of the same assignment as the agent's row. */
  ghost predicate SameAssignment(w: World, x: AttemptId) {
    x in w.jobs && x in w.agent.attempts && w.agent.attempts[x].lease in w.jobs[x].leases
  }

  /** The rows are the last of the events, each under its own sequence number. */
  ghost predicate StoredTail(rows: seq<EventRow>, events: seq<EngineEvent>) {
    && |rows| <= |events|
    && forall i :: |events| - |rows| <= i < |events| ==>
         var row := rows[i - (|events| - |rows|)];
         row.seqNo == i + 1 && row.payload.StreamEvent? && row.payload.event == events[i]
  }

  /** The relay's log is a prefix of what the engine emitted; the rows still stored are
      the end of it, and reach back at least to where the log stops. */
  ghost predicate NothingLost(w: World, x: AttemptId)
    requires SameAssignment(w, x) && AttemptOk(w.agent, x)
  {
    var events, log, rows := Produced(w.agent, x), w.jobs[x].log, RowsOf(w.agent.events, x);
    log <= events && StoredTail(rows, events) && |events| - |rows| <= |log|
  }

  /** No loss, over every run: the relay holds a prefix of what the engine emitted, and
      every other emitted event is still a stored row; before the agent knows the
      relay's assignment the relay's log is empty. */
  lemma NoEventIsLost(c: Config, steps: seq<Step>, x: AttemptId)
    requires Reaches(c, EMPTY_WORLD, steps)
    ensures var w := Reached(c, EMPTY_WORLD, steps);
            && (x in w.jobs && !SameAssignment(w, x) ==> w.jobs[x].log == [])
            && (SameAssignment(w, x) ==> AttemptOk(w.agent, x) && NothingLost(w, x))
  {
    WorldStart(c);
    WorldAlways(c, EMPTY_WORLD, steps);
    LinkLosesNothing(c, Reached(c, EMPTY_WORLD, steps), x);
  }

  lemma LinkLosesNothing(c: Config, w: World, x: AttemptId)
    requires WorldInv(c, w)
    ensures x in w.jobs && !SameAssignment(w, x) ==> w.jobs[x].log == []
    ensures SameAssignment(w, x) ==> AttemptOk(w.agent, x) && NothingLost(w, x)
  {
    assert LinkAt(c, w, x);
    SeenOk(c, w.agent, x);
    if SameAssignment(w, x) {
      assert Agreed(SeenAt(w.agent, x), w.jobs[x]);
      StoredEvents(Log(w.agent, x), RowsOf(w.agent.events, x), x, w.agent.attempts[x].job, Produced(w.agent, x));
      hide Inv, RowsOf, LogOk, StoredTail, Link;
    }
  }

  lemma StoredEvents(log: seq<EventRow>, rows: seq<EventRow>, x: AttemptId, job: JobId, events: seq<EngineEvent>)
    requires LogOk(log, x, job) && Window(log, rows) && |events| == |log|
    requires forall i :: 0 <= i < |log| ==> log[i].payload.StreamEvent? && events[i] == log[i].payload.event
    ensures StoredTail(rows, events)
  {
    forall i | |log| - |rows| <= i < |log|
      ensures rows[i - (|log| - |rows|)] == log[i] && LogRowOk(log[i], x, job, i + 1)
    {
    }
  }

  /** No gap: on a connection that created or resumed the attempt, receiving what is in
      flight brings the relay, without ever meeting a gap, to everything the engine
      has emitted; with nothing in flight it holds all of it. */
  lemma ConnectionCatchesUp(c: Config, steps: seq<Step>, x: AttemptId)
    requires Reaches(c, EMPTY_WORLD, steps)
    ensures var w := Reached(c, EMPTY_WORLD, steps);
            SameAssignment(w, x) && x in w.synced ==>
              && AttemptOk(w.agent, x)
              && Feed(w.up, x, w.jobs[x], |w.jobs[x].log|) == Some(|Produced(w.agent, x)|)
              && (w.up == [] ==> w.jobs[x].log == Produced(w.agent, x))
              && (w.up != [] && Relevant(w.up[0], x, w.jobs[x]) ==> w.up[0].seqNo <= |w.jobs[x].log| + 1)
  {
    WorldStart(c);
    WorldAlways(c, EMPTY_WORLD, steps);
    var w := Reached(c, EMPTY_WORLD, steps);
    assert LinkAt(c, w, x);
    SeenOk(c, w.agent, x);
  }

  /** Every resumed attempt, and every attempt created on the connection, is carried
      without a gap for as long as the connection lasts. */
  lemma ResumedIsSynced(c: Config, w: World, s: Step, x: AttemptId)
    requires Enabled(w, s)
    ensures s.Connect? ==> (x in Next(c, w, s).synced <==> exists d :: d in s.ds && d.ResumeFrom? && d.attempt == x)
    ensures s.DeliverDown? && x !in w.agent.attempts && x in Next(c, w, s).agent.attempts && About(w.down[0]) == x ==>
              x in Next(c, w, s).synced
    ensures x in w.synced && !s.Disconnect? && !s.NewProcess? && !s.Connect? ==> x in Next(c, w, s).synced
  {
    hide React, ApplyResume;
  }
}
