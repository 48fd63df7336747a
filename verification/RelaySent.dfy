/** The event messages of one attempt that the agent sends on one connection: their
    sequence numbers run from the resume point to the last event emitted, each once. */
module RelaySent {
  import opened Options
  import opened JobTypes
  import opened EventTable
  import opened JobProtocol
  import opened JobInvariant
  import opened JobRuns
  import opened JobLeases
  import opened JobAssignment
  import opened RelayLink
  import opened RelayWorld

  /** The numbers of the event messages about `x`, in the order they were sent. */
  function Numbers(sent: seq<Msg>, x: AttemptId): seq<nat> {
    if sent == [] then []
    else
      var init, last := Numbers(sent[..|sent| - 1], x), sent[|sent| - 1];
      if last.StreamEvent? && last.attempt == x then init + [last.seqNo] else init
  }

  /** m + 1, m + 2, …, n. */
  function Range(m: nat, n: nat): (r: seq<nat>)
    ensures |r| == if m <= n then n - m else 0
    ensures forall i :: 0 <= i < |r| ==> r[i] == m + 1 + i
  {
    if m >= n then [] else Range(m, n - 1) + [n]
  }

  lemma {:induction false} NumbersConcat(s: seq<Msg>, t: seq<Msg>, x: AttemptId)
    ensures Numbers(s + t, x) == Numbers(s, x) + Numbers(t, x)
  {
    if t == [] {
      assert s + t == s;
    } else {
      NumbersConcat(s, t[..|t| - 1], x);
      assert (s + t)[..|s + t| - 1] == s + t[..|t| - 1];
    }
  }

  lemma {:induction false} NoNumbers(sent: seq<Msg>, x: AttemptId)
    requires forall m :: m in sent ==> !(m.StreamEvent? && m.attempt == x)
    ensures Numbers(sent, x) == []
  {
    if sent != [] { NoNumbers(sent[..|sent| - 1], x); }
  }

  lemma {:induction false} NumbersOfRun(sent: seq<Msg>, x: AttemptId, from: nat)
    requires forall i :: 0 <= i < |sent| ==> sent[i].StreamEvent? && sent[i].attempt == x && sent[i].seqNo == from + i + 1
    ensures Numbers(sent, x) == Range(from, from + |sent|)
  {
    if sent != [] { NumbersOfRun(sent[..|sent| - 1], x, from); }
  }

  lemma RangeJoin(a: nat, b: nat, c: nat)
    requires a <= b <= c
    ensures Range(a, b) + Range(b, c) == Range(a, c)
  {
  }

  /** The last number given to an event of `x`. */
  function Last(a: Agent, x: AttemptId): nat
    requires x in a.attempts
  {
    a.attempts[x].lastSeq
  }

  // ---- one input of the agent ----

  /** The numbers an input sends are exactly those it gives out. */
  lemma InputNumbers(c: Config, a: Agent, i: Input, x: AttemptId)
    requires Inv(c, a) && Allowed(a, i) && !i.InResume? && !i.InRestart?
    requires x in a.attempts && x in React(c, a, i).agent.attempts
    ensures Last(a, x) <= Last(React(c, a, i).agent, x)
    ensures Numbers(React(c, a, i).sent, x) == Range(Last(a, x), Last(React(c, a, i).agent, x))
  {
    if x != Subject(a, i) {
      InvReact(c, a, i);
      SentAboutSubject(c, a, i);
      assert AgreeAt(a, React(c, a, i).agent, x);
      hide React, Inv, Elsewhere;
      NoNumbers(React(c, a, i).sent, x);
    } else {
      OwnNumbers(c, a, i);
    }
  }

  lemma OwnNumbers(c: Config, a: Agent, i: Input)
    requires Inv(c, a) && Allowed(a, i) && !i.InResume? && !i.InRestart?
    requires var x := Subject(a, i); x in a.attempts && x in React(c, a, i).agent.attempts
    ensures var x, b := Subject(a, i), React(c, a, i).agent;
            Last(a, x) <= Last(b, x) && Numbers(React(c, a, i).sent, x) == Range(Last(a, x), Last(b, x))
  {
    hide Inv, Assign, OnEvent, OnDone, StreamAck, ResultAck, LeaseGranted, CancelJob, Revoke, Numbers, Range;
    match i
    case InEvent(_, id, ev) => EventNumbers(c, a, id, ev);
    case InAssign(now, m) => AssignNumbers(c, a, now, m);
    case _ => QuietNumbers(c, a, i);
  }

  lemma EventNumbers(c: Config, a: Agent, id: RunId, ev: EngineEvent)
    requires Inv(c, a) && id in a.runs && a.runs[id].live && a.runs[id].attempt in a.attempts
    ensures var x, o := a.runs[id].attempt, OnEvent(c, a, id, ev);
            && x in o.agent.attempts && Last(a, x) <= Last(o.agent, x)
            && Numbers(o.sent, x) == Range(Last(a, x), Last(o.agent, x))
  {
    var x, o := a.runs[id].attempt, OnEvent(c, a, id, ev);
    EventCounts(c, a, id, ev);
    hide OnEvent, Inv, Last;
    NumbersOfRun(o.sent, x, Last(a, x));
  }

  lemma EventCounts(c: Config, a: Agent, id: RunId, ev: EngineEvent)
    requires Inv(c, a) && id in a.runs && a.runs[id].live && a.runs[id].attempt in a.attempts
    ensures var x, o := a.runs[id].attempt, OnEvent(c, a, id, ev);
            && x in o.agent.attempts && |o.sent| <= 1 && Last(o.agent, x) == Last(a, x) + |o.sent|
            && forall i :: 0 <= i < |o.sent| ==>
                 o.sent[i].StreamEvent? && o.sent[i].attempt == x && o.sent[i].seqNo == Last(a, x) + i + 1
  {
    var x, o := a.runs[id].attempt, OnEvent(c, a, id, ev);
    hide OnEvent, Inv, SeenAt, LocalOk;
    SeenAfterEvent(c, a, id, ev);
    if o != Quiet(a) { CountedEvents(c, a, o.agent, x); }
  }

  /** The record has as many events as the row has numbers. */
  lemma CountedEvents(c: Config, a: Agent, b: Agent, x: AttemptId)
    requires LocalOk(c, a, x) && LocalOk(c, b, x) && x in a.attempts && SeenAt(b, x).has
    ensures x in b.attempts && |SeenAt(a, x).events| == Last(a, x) && |SeenAt(b, x).events| == Last(b, x)
  {
  }

  lemma AssignNumbers(c: Config, a: Agent, now: int, m: AssignMsg)
    requires Inv(c, a) && m.attempt in a.attempts
    ensures var o, x := Assign(c, a, now, m), m.attempt;
            x in o.agent.attempts && Last(o.agent, x) == Last(a, x) && Numbers(o.sent, x) == Range(Last(a, x), Last(a, x))
  {
    DuplicateAssign(c, a, now, m);
    hide Inv, Assign;
    NoNumbers(Assign(c, a, now, m).sent, m.attempt);
  }

  /** Nothing else numbers an event or sends one. */
  lemma QuietNumbers(c: Config, a: Agent, i: Input)
    requires Inv(c, a) && Allowed(a, i) && !i.InResume? && !i.InRestart? && !i.InEvent? && !i.InAssign?
    requires var x := Subject(a, i); x in a.attempts && x in React(c, a, i).agent.attempts
    ensures var x, b := Subject(a, i), React(c, a, i).agent;
            Last(b, x) == Last(a, x) && Numbers(React(c, a, i).sent, x) == Range(Last(a, x), Last(a, x))
  {
    var x := Subject(a, i);
    QuietHandlers(c, a, i);
    hide React, Inv;
    NoNumbers(React(c, a, i).sent, x);
  }

  lemma QuietHandlers(c: Config, a: Agent, i: Input)
    requires Allowed(a, i) && !i.InResume? && !i.InRestart? && !i.InEvent? && !i.InAssign?
    ensures forall m :: m in React(c, a, i).sent ==> !m.StreamEvent?
    ensures forall x :: x in a.attempts && x in React(c, a, i).agent.attempts ==>
              Last(React(c, a, i).agent, x) == Last(a, x)
  {
    hide LeaseOk, Acked, Dropped, OverCap;
  }

  // ---- one step of a connection ----

  /** What the agent sends in one step, on the connection there is. */
  function Says(c: Config, w: World, s: Step): seq<Msg>
    requires s.Engine? ==> (s.i.InEvent? || s.i.InDone?) && s.i.id in w.agent.runs
    requires s.DeliverDown? ==> w.down != []
  {
    match s
    case Engine(i) => if w.online then React(c, w.agent, i).sent else []
    case DeliverDown(now) => if w.online then React(c, w.agent, InputOf(w.down[0], now)).sent else []
    case Connect(now, _, ds) => ApplyResume(c, w.agent, now, ds).sent
    case _ => []
  }

  /** It is what the step adds to the messages in flight to the relay. */
  lemma SaidIsInFlight(c: Config, w: World, s: Step)
    requires Enabled(w, s)
    ensures s.Connect? ==> Next(c, w, s).up == Says(c, w, s)
    ensures Lasts(s) ==> Next(c, w, s).up == (if s.DeliverUp? then w.up[1..] else w.up) + Says(c, w, s)
  {
    hide React, ApplyResume;
  }

  /** The connection lasts. */
  predicate Lasts(s: Step) {
    !s.Disconnect? && !s.NewProcess? && !s.Connect?
  }

  lemma StepNumbers(c: Config, w: World, s: Step, x: AttemptId)
    requires WorldInv(c, w) && Enabled(w, s) && Lasts(s) && w.online
    requires x in w.agent.attempts && x in Next(c, w, s).agent.attempts
    ensures var v := Next(c, w, s);
            && v.online && Last(w.agent, x) <= Last(v.agent, x)
            && Numbers(Says(c, w, s), x) == Range(Last(w.agent, x), Last(v.agent, x))
  {
    hide WorldInv, React, Numbers, Range, RelayMaySend, Reported, ApplyResume;
    AgentInv(c, w);
    NoNumbers([], x);
    EmptyRange(Last(w.agent, x));
    match s
    case Engine(i) => InputNumbers(c, w.agent, i, x);
    case DeliverDown(now) => InputNumbers(c, w.agent, InputOf(w.down[0], now), x);
    case _ =>
  }

  lemma EmptyRange(m: nat)
    ensures Range(m, m) == []
  {
  }

  lemma AgentInv(c: Config, w: World)
    requires WorldInv(c, w)
    ensures Inv(c, w.agent)
  {
  }

  // ---- a whole connection ----

  /** The attempt is kept and the connection lasts over all these steps. */
  ghost predicate Carries(c: Config, w: World, steps: seq<Step>, x: AttemptId)
    requires Reaches(c, w, steps)
    decreases |steps|
  {
    && x in w.agent.attempts
    && (steps == [] || (Lasts(steps[0]) && Carries(c, Next(c, w, steps[0]), steps[1..], x)))
  }

  /** The numbers sent over the steps, in order. */
  ghost function SentOver(c: Config, w: World, steps: seq<Step>, x: AttemptId): seq<nat>
    requires Reaches(c, w, steps)
    decreases |steps|
  {
    if steps == [] then [] else Numbers(Says(c, w, steps[0]), x) + SentOver(c, Next(c, w, steps[0]), steps[1..], x)
  }

  /** While a connection lasts, the numbers sent are those of the events emitted meanwhile. */
  lemma {:induction false} CarriedNumbers(c: Config, w: World, steps: seq<Step>, x: AttemptId)
    requires WorldInv(c, w) && w.online && Reaches(c, w, steps) && Carries(c, w, steps, x)
    ensures var u := Reached(c, w, steps);
            && x in u.agent.attempts && Last(w.agent, x) <= Last(u.agent, x)
            && SentOver(c, w, steps, x) == Range(Last(w.agent, x), Last(u.agent, x))
    decreases |steps|
  {
    hide WorldInv, Next, Says, Numbers, Range;
    if steps == [] {
      EmptyRange(Last(w.agent, x));
    } else {
      var v := Next(c, w, steps[0]);
      WorldStep(c, w, steps[0]);
      StepNumbers(c, w, steps[0], x);
      CarriedNumbers(c, v, steps[1..], x);
      RangeJoin(Last(w.agent, x), Last(v.agent, x), Last(Reached(c, w, steps).agent, x));
    }
  }

  /** An attempt created on a connection: its numbers on it are 1, 2, … to the last. */
  lemma CreatedNumbers(c: Config, w: World, now: int, steps: seq<Step>, x: AttemptId)
    requires WorldInv(c, w) && Enabled(w, DeliverDown(now)) && x !in w.agent.attempts
    requires var v := Next(c, w, DeliverDown(now)); Reaches(c, v, steps) && Carries(c, v, steps, x)
    ensures var v := Next(c, w, DeliverDown(now));
            && x in v.agent.attempts && x in Reached(c, v, steps).agent.attempts
            && Numbers(Says(c, w, DeliverDown(now)), x) + SentOver(c, v, steps, x) == Range(0, Last(Reached(c, v, steps).agent, x))
  {
    hide WorldInv, Next, Says, Numbers, Range, Reached, SentOver;
    var v := Next(c, w, DeliverDown(now));
    WorldStep(c, w, DeliverDown(now));
    CreatingDelivery(c, w, now, x);
    CarriedNumbers(c, v, steps, x);
  }

  lemma CreatingDelivery(c: Config, w: World, now: int, x: AttemptId)
    requires WorldInv(c, w) && Enabled(w, DeliverDown(now)) && x !in w.agent.attempts
    ensures var v := Next(c, w, DeliverDown(now));
            v.online && (x in v.agent.attempts ==> Last(v.agent, x) == 0 && Numbers(Says(c, w, DeliverDown(now)), x) == [])
  {
    hide WorldInv, React, Numbers, Last;
    AgentInv(c, w);
    var i := InputOf(w.down[0], now);
    if x in React(c, w.agent, i).agent.attempts {
      CreatingInput(c, w.agent, i, x);
      NoNumbers(React(c, w.agent, i).sent, x);
    }
  }

  /** Only an assignment creates an attempt; it starts at zero and sends no event. */
  lemma CreatingInput(c: Config, a: Agent, i: Input, x: AttemptId)
    requires Inv(c, a) && Allowed(a, i) && !i.InResume? && !i.InRestart?
    requires x !in a.attempts && x in React(c, a, i).agent.attempts
    ensures Last(React(c, a, i).agent, x) == 0 && forall m :: m in React(c, a, i).sent ==> !m.StreamEvent?
  {
    CreatesSubject(c, a, i, x);
    OwnCreation(c, a, i);
  }

  lemma CreatesSubject(c: Config, a: Agent, i: Input, x: AttemptId)
    requires Inv(c, a) && Allowed(a, i) && !i.InResume? && !i.InRestart?
    ensures x !in a.attempts && x in React(c, a, i).agent.attempts ==> x == Subject(a, i)
  {
    if x != Subject(a, i) {
      InvReact(c, a, i);
      assert AgreeAt(a, React(c, a, i).agent, x);
    }
  }

  lemma OwnCreation(c: Config, a: Agent, i: Input)
    requires Allowed(a, i) && !i.InResume? && !i.InRestart?
    requires Subject(a, i) !in a.attempts && Subject(a, i) in React(c, a, i).agent.attempts
    ensures i.InAssign? && Last(React(c, a, i).agent, i.m.attempt) == 0
    ensures forall m :: m in React(c, a, i).sent ==> !m.StreamEvent?
  {
    hide LeaseOk, Acked, Dropped, OverCap, Admit, NewRow, ResultOf;
  }

  // ---- what a resume list re-sends ----

  /** The one directive about `x` is the resume at place `i`. */
  predicate ResumesOnce(ds: seq<Directive>, i: nat, x: AttemptId) {
    && i < |ds| && ds[i].ResumeFrom? && ds[i].attempt == x
    && forall j :: 0 <= j < |ds| && j != i ==> ds[j].attempt != x
  }

  /** Two states of the agent agree on the history of `x` and on what of it is stored. */
  ghost predicate SameHistory(a: Agent, b: Agent, x: AttemptId) {
    && x in a.attempts && x in b.attempts && Last(b, x) == Last(a, x)
    && forall k: nat :: ResumePoint(b, x, k) == ResumePoint(a, x, k)
  }

  lemma OtherDirective(c: Config, a: Agent, now: int, d: Directive, x: AttemptId)
    requires Inv(c, a) && Ended(a, d) && d.attempt != x && x in a.attempts
    ensures var o := Directed(c, a, now, d);
            Inv(c, o.agent) && SameHistory(a, o.agent, x) && Numbers(o.sent, x) == []
  {
    hide Directed, Inv, Elsewhere, SameHistory, Numbers;
    var o := Directed(c, a, now, d);
    InvDirected(c, a, now, d);
    HistoryElsewhere(c, a, o.agent, d.attempt, x);
    DirectedAbout(c, a, now, d);
    NoNumbers(o.sent, x);
  }

  lemma HistoryElsewhere(c: Config, a: Agent, b: Agent, y: AttemptId, x: AttemptId)
    requires Inv(c, a) && Elsewhere(a, b, y) && x != y && x in a.attempts
    ensures SameHistory(a, b, x)
  {
    assert AgreeAt(a, b, x) && LocalOk(c, a, x);
    LocalFrame(c, a, b, y, x);
    hide Inv, Elsewhere, RowsOf;
  }

  /** A directive sends events of its own attempt only. */
  lemma DirectedAbout(c: Config, a: Agent, now: int, d: Directive)
    requires Inv(c, a)
    ensures forall m :: m in Directed(c, a, now, d).sent && m.StreamEvent? ==> m.attempt == d.attempt
  {
    if d.ResumeFrom? {
      InvAdopted(c, a, now, d.attempt, d.newLease);
      ResumedMessages(c, Adopted(a, now, d.attempt, d.newLease), d.attempt, d.after, d.newLease);
      hide Adopted, Inv, EventsAfter;
    } else {
      hide Inv, Adopted, Restamped, Dropped;
    }
  }

  lemma ResumeDirective(c: Config, a: Agent, now: int, d: Directive)
    requires Inv(c, a) && d.ResumeFrom? && d.attempt in a.attempts
    ensures var o, x := Directed(c, a, now, d), d.attempt;
            && Inv(c, o.agent) && SameHistory(a, o.agent, x) && ResumePoint(a, x, d.after) <= Last(a, x)
            && Numbers(o.sent, x) == Range(ResumePoint(a, x, d.after), Last(a, x))
  {
    var x, b := d.attempt, Adopted(a, now, d.attempt, d.newLease);
    InvAdopted(c, a, now, x, d.newLease);
    AdoptedKeeps(a, now, x, d.newLease);
    ResumedRows(c, b, x, d.after);
    assert Log(b, x) == Log(a, x) && LocalOk(c, a, x);
    assert SameHistory(a, b, x);
    var rows := EventsAfter(b.events, x, d.after);
    ResumedNumbers(Log(b, x), x, b.attempts[x].job, ResumePoint(b, x, d.after), d.newLease);
    hide Adopted, Inv, LocalOk, EventsAfter, RowsOf, Numbers, Range;
  }

  lemma ResumedNumbers(log: seq<EventRow>, x: AttemptId, job: JobId, from: nat, lease: Option<LeaseId>)
    requires from <= |log| && LogOk(log, x, job)
    ensures Numbers(Payloads(log[from..], lease), x) == Range(from, |log|)
  {
    hide Numbers, Range, Payloads, LogOk;
    var sent := Payloads(log[from..], lease);
    forall i | 0 <= i < |sent| ensures sent[i].StreamEvent? && sent[i].attempt == x && sent[i].seqNo == from + i + 1 {
      LogRow(log, x, job, from + i);
      assert log[from..][i] == log[from + i];
    }
    assert |log[from..]| == |log| - from;
    NumbersOfRun(sent, x, from);
  }

  lemma LogRow(log: seq<EventRow>, x: AttemptId, job: JobId, i: nat)
    requires LogOk(log, x, job) && i < |log|
    ensures log[i].payload.StreamEvent? && log[i].payload.attempt == x && log[i].payload.seqNo == i + 1
  {
    assert LogRowOk(log[i], x, job, i + 1);
  }

  lemma {:induction false} ListNumbers(c: Config, a: Agent, now: int, ds: seq<Directive>, i: nat, x: AttemptId)
    requires Inv(c, a) && x in a.attempts && (forall d :: d in ds ==> Ended(a, d))
    requires ResumesOnce(ds, i, x) || forall j :: 0 <= j < |ds| ==> ds[j].attempt != x
    ensures var o := ApplyResume(c, a, now, ds);
            && Inv(c, o.agent) && SameHistory(a, o.agent, x)
            && Numbers(o.sent, x) ==
               if ResumesOnce(ds, i, x) then Range(ResumePoint(a, x, ds[i].after), Last(a, x)) else []
    ensures ResumesOnce(ds, i, x) ==> ResumePoint(a, x, ds[i].after) <= Last(a, x)
  {
    hide Directed, Inv, Numbers, Range, SameHistory;
    if ds == [] {
      NoNumbers([], x);
      assert SameHistory(a, a, x) by { SameHistoryRefl(a, x); }
    } else {
      var init, d := ds[..|ds| - 1], ds[|ds| - 1];
      var o := ApplyResume(c, a, now, init);
      assert Ended(a, d);
      InvApplyResume(c, a, now, init);
      assert Ended(o.agent, d);
      ListNumbers(c, a, now, init, i, x);
      HistoryKept(a, o.agent, x);
      NumbersConcat(o.sent, Directed(c, o.agent, now, d).sent, x);
      if d.attempt == x { ResumeDirective(c, o.agent, now, d); } else { OtherDirective(c, o.agent, now, d, x); }
      HistoryTrans(a, o.agent, Directed(c, o.agent, now, d).agent, x);
      if d.attempt == x { HistoryPoint(a, o.agent, x, d.after); }
    }
  }

  lemma SameHistoryRefl(a: Agent, x: AttemptId)
    requires x in a.attempts
    ensures SameHistory(a, a, x)
  {
  }

  lemma HistoryKept(a: Agent, b: Agent, x: AttemptId)
    requires SameHistory(a, b, x)
    ensures x in a.attempts && x in b.attempts && Last(b, x) == Last(a, x)
  {
  }

  lemma HistoryPoint(a: Agent, b: Agent, x: AttemptId, k: nat)
    requires SameHistory(a, b, x)
    ensures ResumePoint(b, x, k) == ResumePoint(a, x, k)
  {
  }

  lemma HistoryTrans(a: Agent, b: Agent, d: Agent, x: AttemptId)
    requires SameHistory(a, b, x) && SameHistory(b, d, x)
    ensures SameHistory(a, d, x)
  {
  }

  /** The whole of it. After a reconnect that resumes `x` from `k`, and for as long as the
      connection lasts and the attempt is kept: the numbers of the event messages of `x`
      sent on that connection are exactly those from the resume point (`k`, or the last
      acknowledgement if that is later) to the last event emitted, each once and in order,
      whether emitted before the connection, during it, or while it was made. */
  lemma ConnectionSendsEach(
      c: Config, w: World, now: int, epoch: int, ds: seq<Directive>, steps: seq<Step>, i: nat, x: AttemptId)
    requires WorldInv(c, w) && Enabled(w, Connect(now, epoch, ds)) && ResumesOnce(ds, i, x)
    requires var v := Next(c, w, Connect(now, epoch, ds)); Reaches(c, v, steps) && Carries(c, v, steps, x)
    ensures var v := Next(c, w, Connect(now, epoch, ds));
            && x in w.agent.attempts && x in Reached(c, v, steps).agent.attempts
            && 0 <= ResumePoint(w.agent, x, ds[i].after) <= Last(Reached(c, v, steps).agent, x)
            && Numbers(Says(c, w, Connect(now, epoch, ds)), x) + SentOver(c, v, steps, x)
               == Range(ResumePoint(w.agent, x, ds[i].after), Last(Reached(c, v, steps).agent, x))
  {
    var v := Next(c, w, Connect(now, epoch, ds));
    WorldStep(c, w, Connect(now, epoch, ds));
    AgentInv(c, w);
    ConnectValid(w, now, epoch, ds, i, x);
    assert v.agent == ApplyResume(c, w.agent, now, ds).agent && v.online;
    assert Says(c, w, Connect(now, epoch, ds)) == ApplyResume(c, w.agent, now, ds).sent;
    ListNumbers(c, w.agent, now, ds, i, x);
    HistoryKept(w.agent, v.agent, x);
    PointIsNat(c, w.agent, x, ds[i].after);
    hide WorldInv, Next, Says, Numbers, Range, Carries, Reaches, ApplyResume, Inv, SameHistory, Enabled;
    CarriedNumbers(c, v, steps, x);
    RangeJoin(ResumePoint(w.agent, x, ds[i].after), Last(w.agent, x), Last(Reached(c, v, steps).agent, x));
  }

  lemma PointIsNat(c: Config, a: Agent, x: AttemptId, k: nat)
    requires Inv(c, a) && x in a.attempts
    ensures 0 <= ResumePoint(a, x, k)
  {
    assert LocalOk(c, a, x);
  }

  /** The relay resumes what the agent has, and drops no registered run by `ack_pending`. */
  lemma ConnectValid(w: World, now: int, epoch: int, ds: seq<Directive>, i: nat, x: AttemptId)
    requires Enabled(w, Connect(now, epoch, ds)) && ResumesOnce(ds, i, x)
    ensures x in w.agent.attempts && forall d :: d in ds ==> Ended(w.agent, d)
  {
    assert ds[i] in ds;
    forall d | d in ds ensures Ended(w.agent, d) { assert ValidDirective(w.agent, w.jobs - Closed(ds), d); }
  }

  // ---- and the relay receives them ----

  /** A resumed attempt is carried without a gap for as long as the connection lasts. */
  lemma {:induction false} StaysSynced(c: Config, w: World, steps: seq<Step>, x: AttemptId)
    requires Reaches(c, w, steps) && x in w.synced && forall i :: 0 <= i < |steps| ==> Lasts(steps[i])
    ensures x in Reached(c, w, steps).synced
    decreases |steps|
  {
    if steps != [] {
      ResumedIsSynced(c, w, steps[0], x);
      hide Next, Enabled;
      StaysSynced(c, Next(c, w, steps[0]), steps[1..], x);
    }
  }

  /** So over every run, on a connection that resumed `x`, whenever nothing is in flight
      the relay holds everything the engine has emitted. */
  lemma ResumedCatchesUp(c: Config, steps: seq<Step>, connect: Step, more: seq<Step>, x: AttemptId)
    requires Reaches(c, EMPTY_WORLD, steps + [connect] + more) && connect.Connect?
    requires exists d :: d in connect.ds && d.ResumeFrom? && d.attempt == x
    requires forall i :: 0 <= i < |more| ==> Lasts(more[i])
    ensures var w := Reached(c, EMPTY_WORLD, steps + [connect] + more);
            && x in w.synced
            && (SameAssignment(w, x) && w.up == [] ==> AttemptOk(w.agent, x) && w.jobs[x].log == Produced(w.agent, x))
  {
    assert steps + [connect] + more == steps + ([connect] + more);
    ReachesJoin(c, EMPTY_WORLD, steps, [connect] + more);
    var w := Reached(c, EMPTY_WORLD, steps);
    ResumedIsSynced(c, w, connect, x);
    assert ([connect] + more)[1..] == more;
    StaysSynced(c, Next(c, w, connect), more, x);
    ConnectionCatchesUp(c, steps + [connect] + more, x);
    hide Next, Enabled;
  }

  lemma {:induction false} ReachesJoin(c: Config, w: World, s: seq<Step>, t: seq<Step>)
    requires Reaches(c, w, s + t)
    ensures Reaches(c, w, s) && Reaches(c, Reached(c, w, s), t)
    ensures Reached(c, w, s + t) == Reached(c, Reached(c, w, s), t)
    decreases |s|
  {
    hide Next;
    if s == [] {
      assert s + t == t;
    } else {
      assert (s + t)[1..] == s[1..] + t;
      ReachesJoin(c, Next(c, w, s[0]), s[1..], t);
    }
  }
}
