/** Backpressure: how much a run may leave unacknowledged, and when an acknowledgement
    wakes it up again. */
module JobBackpressure {
  import opened Options
  import opened JobTypes
  import opened EventTable
  import opened JobProtocol
  import opened JobInvariant
  import opened JobRuns
  import opened JobLeases

  /** An engine that honours `pause` emits nothing until `resume`. */
  ghost predicate Honours(a: Agent, i: Input) {
    i.InEvent? ==> i.id in a.runs && !a.runs[i.id].paused
  }

  predicate LocalFree(c: Config, rows: seq<EventRow>) {
    |rows| < c.maxEvents && Bytes(rows) < c.maxBytes
  }

  /** Never more events than the cap, and below the byte cap before the last one. */
  predicate Bounded(c: Config, rows: seq<EventRow>) {
    |rows| <= c.maxEvents && (rows != [] ==> Bytes(rows[..|rows| - 1]) < c.maxBytes)
  }

  ghost predicate FlowAt(c: Config, a: Agent, x: AttemptId) {
    && Bounded(c, RowsOf(a.events, x))
    && (Lookup(a, x).Some? && !Lookup(a, x).value.paused ==> LocalFree(c, RowsOf(a.events, x)))
  }

  ghost predicate CapsPositive(c: Config) {
    c.maxEvents > 0 && c.maxBytes > 0
  }

  lemma SuffixFlow(c: Config, rows: seq<EventRow>, j: nat)
    requires j <= |rows|
    ensures Bytes(rows[j..]) <= Bytes(rows)
    ensures Bounded(c, rows) ==> Bounded(c, rows[j..])
    ensures LocalFree(c, rows) ==> LocalFree(c, rows[j..])
  {
    hide Bytes, Bounded, LocalFree;
    var p, q := rows[..j], rows[j..];
    assert rows == p + q;
    TailFlow(c, p, q);
  }

  lemma TailFlow(c: Config, p: seq<EventRow>, q: seq<EventRow>)
    ensures Bytes(q) <= Bytes(p + q)
    ensures Bounded(c, p + q) ==> Bounded(c, q)
    ensures LocalFree(c, p + q) ==> LocalFree(c, q)
  {
    hide Bytes;
    BytesConcat(p, q);
    if q != [] {
      var init := q[..|q| - 1];
      assert (p + q)[..|p + q| - 1] == p + init;
      BytesConcat(p, init);
    }
  }

  /** After an accepted or refused ack the rows of `x` are a suffix of what they were. */
  lemma AckLeavesSuffix(c: Config, a: Agent, x: AttemptId, k: int) returns (j: nat)
    requires Inv(c, a)
    ensures j <= |RowsOf(a.events, x)| && RowsOf(Acked(a.events, x, k), x) == RowsOf(a.events, x)[j..]
  {
    assert LocalOk(c, a, x);
    AckedRows(c, a, x, k, x);
    if x in a.attempts {
      var log, rows, left := Log(a, x), RowsOf(a.events, x), RowsOf(Acked(a.events, x, k), x);
      hide RowsOf, Acked, LocalOk, Inv;
      j := |rows| - |left|;
      assert rows[j..] == log[|log| - |left|..];
    } else {
      j := 0;
    }
  }

  lemma FlowAck(c: Config, a: Agent, now: int, x: AttemptId, lease: LeaseId, k: nat)
    requires Inv(c, a) && FlowAt(c, a, x)
    ensures FlowAt(c, StreamAck(c, a, now, x, lease, k).agent, x)
  {
    var j := AckLeavesSuffix(c, a, x, k);
    SuffixFlow(c, RowsOf(a.events, x), j);
    hide Inv, RowsOf, Acked, Bytes, LeaseOk, Bounded;
  }

  lemma FlowEvent(c: Config, a: Agent, id: RunId, ev: EngineEvent)
    requires Inv(c, a) && id in a.runs && a.runs[id].live && !a.runs[id].paused
    requires FlowAt(c, a, a.runs[id].attempt)
    ensures FlowAt(c, OnEvent(c, a, id, ev).agent, a.runs[id].attempt)
  {
    hide RowsOf, Bytes;
    var x := a.runs[id].attempt;
    assert RunOk(a, id);
    Basics(c, a, x) by { assert LocalOk(c, a, x); }
    hide Inv, RunOk;
    if !a.runs[id].fenced {
      var row := NewRow(c, a.runs[id], ev);
      AppendRows(a.events, row, x);
      var rows := RowsOf(a.events, x);
      AppendRows(rows, row, x);
      assert (rows + [row])[..|rows|] == rows;
      hide NewRow;
    }
  }

  /** Rows and pause flag of `x` are as before, or its run is gone, or it is new. */
  ghost predicate Undisturbed(a: Agent, b: Agent, x: AttemptId) {
    && (RowsOf(b.events, x) == RowsOf(a.events, x) || (RowsOf(b.events, x) == [] && Lookup(b, x).None?))
    && (Lookup(b, x).Some? ==>
          if Lookup(a, x).Some? then Lookup(b, x).value.paused == Lookup(a, x).value.paused
          else RowsOf(b.events, x) == [] && !Lookup(b, x).value.paused)
  }

  lemma UndisturbedByDone(c: Config, a: Agent, now: int, id: RunId, o: Outcome)
    requires id in a.runs
    ensures Undisturbed(a, OnDone(c, a, now, id, o).agent, a.runs[id].attempt)
  {
    hide RowsOf, ResultOf;
  }

  lemma UndisturbedByAssign(c: Config, a: Agent, now: int, m: AssignMsg)
    requires Inv(c, a)
    ensures Undisturbed(a, Assign(c, a, now, m).agent, m.attempt)
  {
    hide RowsOf, Admit, Inv;
    LeaseAgreement(c, a, m.attempt);
    if m.attempt !in a.attempts { NoRowsWithoutRow(c, a, m.attempt); }
  }

  lemma NoRowsWithoutRow(c: Config, a: Agent, x: AttemptId)
    requires Inv(c, a) && x !in a.attempts
    ensures RowsOf(a.events, x) == []
  {
    assert LocalOk(c, a, x);
  }

  lemma UndisturbedByEnd(a: Agent, now: int, x: AttemptId, lease: LeaseId, digest: Digest)
    ensures Undisturbed(a, ResultAck(a, now, x, lease, digest).agent, x)
    ensures Undisturbed(a, Revoke(a, now, x, lease).agent, x)
  {
    hide RowsOf, Dropped, LeaseOk;
    RowsOfDropped(a.events, x, x);
  }

  lemma UndisturbedByLease(a: Agent, now: int, x: AttemptId, lease: LeaseId, grace: nat)
    ensures Undisturbed(a, LeaseGranted(a, now, x, lease).agent, x)
    ensures Undisturbed(a, CancelJob(a, now, x, lease, grace).agent, x)
  {
    hide RowsOf, LeaseOk;
  }

  /** Only events and acks change the rows or the pause flag of a run that stays. */
  lemma Undisturbing(c: Config, a: Agent, i: Input)
    requires Inv(c, a) && Allowed(a, i) && !i.InResume? && !i.InRestart? && !i.InStreamAck? && !i.InEvent?
    ensures Undisturbed(a, React(c, a, i).agent, Subject(a, i))
  {
    hide Inv, Undisturbed, OnDone, Assign, ResultAck, Revoke, LeaseGranted, CancelJob;
    match i
    case InDone(now, id, o) => UndisturbedByDone(c, a, now, id, o);
    case InAssign(now, m) => UndisturbedByAssign(c, a, now, m);
    case InResultAck(now, x, lease, digest) => UndisturbedByEnd(a, now, x, lease, digest);
    case InRevoke(now, x, lease) => UndisturbedByEnd(a, now, x, lease, "");
    case InGranted(now, x, lease) => UndisturbedByLease(a, now, x, lease, 0);
    case InCancel(now, x, lease, grace) => UndisturbedByLease(a, now, x, lease, grace);
  }

  lemma FlowAtSubject(c: Config, a: Agent, i: Input)
    requires Inv(c, a) && Allowed(a, i) && Honours(a, i) && !i.InResume? && !i.InRestart? && CapsPositive(c)
    requires FlowAt(c, a, Subject(a, i))
    ensures FlowAt(c, React(c, a, i).agent, Subject(a, i))
  {
    hide Inv, RowsOf, OnEvent, StreamAck, OnDone, Assign, ResultAck, Revoke, LeaseGranted, CancelJob;
    match i
    case InStreamAck(now, x, lease, k) => FlowAck(c, a, now, x, lease, k);
    case InEvent(_, id, ev) => FlowEvent(c, a, id, ev);
    case _ => Undisturbing(c, a, i);
  }

  /** A directive leaves rows and flags of its attempt alone, or forgets the attempt. */
  lemma DirectedShape(c: Config, a: Agent, now: int, d: Directive)
    requires Inv(c, a) && Ended(a, d)
    ensures var b, x := Directed(c, a, now, d).agent, d.attempt;
            || (RowsOf(b.events, x) == [] && Lookup(b, x).None?)
            || (b.events == a.events
                && (Lookup(b, x).Some? ==> Lookup(a, x).Some? && Lookup(b, x).value.paused == Lookup(a, x).value.paused))
  {
    var x := d.attempt;
    if d.ResumeFrom? || d.ResendResult? {
      AdoptedShape(a, now, x, d.newLease);
      hide Inv, EventsAfter, Payloads, Restamped, Adopted, RowsOf;
    } else {
      RowsOfDropped(a.events, x, x);
      hide Inv, RowsOf, Dropped;
    }
  }

  lemma AdoptedShape(a: Agent, now: int, x: AttemptId, lease: Option<LeaseId>)
    ensures var b := Adopted(a, now, x, lease);
            && b.events == a.events
            && (Lookup(b, x).Some? ==> Lookup(a, x).Some? && Lookup(b, x).value.paused == Lookup(a, x).value.paused)
  {
    hide Adopted;
    AdoptedIs(a, now, x, lease);
  }

  lemma FlowDirected(c: Config, a: Agent, now: int, d: Directive)
    requires Inv(c, a) && forall x: AttemptId :: FlowAt(c, a, x)
    requires Ended(a, d)
    ensures forall x: AttemptId :: FlowAt(c, Directed(c, a, now, d).agent, x)
  {
    var b := Directed(c, a, now, d).agent;
    InvDirected(c, a, now, d);
    forall x: AttemptId ensures FlowAt(c, b, x) {
      assert FlowAt(c, a, x);
      if x != d.attempt {
        FlowFrame(c, a, b, d.attempt, x);
      } else {
        DirectedShape(c, a, now, d);
        hide Inv, RowsOf, Bytes, Elsewhere, Directed;
      }
    }
  }

  lemma FlowFrame(c: Config, a: Agent, b: Agent, y: AttemptId, x: AttemptId)
    requires Inv(c, a) && Elsewhere(a, b, y) && x != y && FlowAt(c, a, x)
    ensures FlowAt(c, b, x)
  {
    assert AgreeAt(a, b, x) && LocalOk(c, a, x);
    if x in a.registry { assert RunAgrees(a, b, a.registry[x], y); }
  }

  lemma {:induction false} FlowApplyResume(c: Config, a: Agent, now: int, ds: seq<Directive>)
    requires Inv(c, a) && forall x: AttemptId :: FlowAt(c, a, x)
    requires forall d :: d in ds ==> Ended(a, d)
    ensures forall x: AttemptId :: FlowAt(c, ApplyResume(c, a, now, ds).agent, x)
  {
    if ds != [] {
      var init, d := ds[..|ds| - 1], ds[|ds| - 1];
      assert Ended(a, d);
      InvApplyResume(c, a, now, init);
      FlowApplyResume(c, a, now, init);
      hide Inv, Directed, FlowAt;
      FlowDirected(c, ApplyResume(c, a, now, init).agent, now, d);
    }
  }

  lemma FlowReact(c: Config, a: Agent, i: Input)
    requires Inv(c, a) && Allowed(a, i) && Honours(a, i) && CapsPositive(c)
    requires forall x: AttemptId :: FlowAt(c, a, x)
    ensures forall x: AttemptId :: FlowAt(c, React(c, a, i).agent, x)
  {
    if i.InResume? {
      FlowApplyResume(c, a, i.now, i.ds);
    } else if i.InRestart? {
      forall x: AttemptId ensures FlowAt(c, React(c, a, i).agent, x) { assert FlowAt(c, a, x); }
    } else {
      InvReact(c, a, i);
      FlowAtSubject(c, a, i);
      hide React, FlowAt;
      forall x: AttemptId | x != Subject(a, i) ensures FlowAt(c, React(c, a, i).agent, x) {
        FlowFrame(c, a, React(c, a, i).agent, Subject(a, i), x);
      }
    }
  }

  ghost predicate AllHonour(c: Config, a: Agent, tr: seq<Input>)
    requires Possible(c, a, tr)
    decreases |tr|
  {
    tr == [] || (Honours(a, tr[0]) && AllHonour(c, React(c, a, tr[0]).agent, tr[1..]))
  }

  lemma {:induction false} FlowAlways(c: Config, a: Agent, tr: seq<Input>)
    requires Inv(c, a) && Possible(c, a, tr) && AllHonour(c, a, tr) && CapsPositive(c)
    requires forall x: AttemptId :: FlowAt(c, a, x)
    ensures forall x: AttemptId :: FlowAt(c, After(c, a, tr), x)
    decreases |tr|
  {
    hide React, Inv, FlowAt;
    if tr != [] {
      InvReact(c, a, tr[0]);
      FlowReact(c, a, tr[0]);
      FlowAlways(c, React(c, a, tr[0]).agent, tr[1..]);
    }
  }

  /** Over every run with an engine that honours `pause`: the unacknowledged events of an
      attempt never exceed the event cap, and its unacknowledged bytes without the last
      event stay below the byte cap; a run that is not paused is below both. */
  lemma UnackedIsBounded(c: Config, tr: seq<Input>, x: AttemptId)
    requires Possible(c, EmptyAgent, tr) && AllHonour(c, EmptyAgent, tr) && CapsPositive(c)
    ensures var rows := RowsOf(After(c, EmptyAgent, tr).events, x);
            && |rows| <= c.maxEvents
            && (rows != [] ==> Bytes(rows[..|rows| - 1]) < c.maxBytes)
            && var run := Lookup(After(c, EmptyAgent, tr), x);
               (run.Some? && !run.value.paused ==> |rows| < c.maxEvents && Bytes(rows) < c.maxBytes)
  {
    InvEmpty(c);
    forall y: AttemptId ensures FlowAt(c, EmptyAgent, y) { }
    FlowAlways(c, EmptyAgent, tr);
    assert FlowAt(c, After(c, EmptyAgent, tr), x);
  }

  // ---- the connection cap ----

  /** A run that cannot emit as long as the connection stays at its cap. */
  ghost predicate Spent(a: Agent, id: RunId) {
    id < a.nextId && (id in a.runs ==> a.runs[id].paused || a.runs[id].fenced || !a.runs[id].live)
  }

  /** How many events of run `id` reach the store in a run of inputs. */
  ghost function EmittedBy(c: Config, a: Agent, tr: seq<Input>, id: RunId): nat
    requires Possible(c, a, tr)
    decreases |tr|
  {
    if tr == [] then 0
    else
      (if tr[0].InEvent? && tr[0].id == id && !a.runs[id].fenced then 1 else 0)
      + EmittedBy(c, React(c, a, tr[0]).agent, tr[1..], id)
  }

  /** After every input the connection total is at or above its cap. */
  ghost predicate Saturated(c: Config, a: Agent, tr: seq<Input>)
    requires Possible(c, a, tr)
    decreases |tr|
  {
    tr == [] ||
    var b := React(c, a, tr[0]).agent;
    Bytes(b.events) >= c.maxConn && Saturated(c, b, tr[1..])
  }

  lemma SpentDirected(c: Config, a: Agent, now: int, d: Directive, id: RunId)
    requires Spent(a, id)
    ensures Spent(Directed(c, a, now, d).agent, id)
  {
    hide EventsAfter, Dropped, Payloads, Restamped, Adopted, Fence;
    if d.ResumeFrom? || d.ResendResult? {
      SpentAdopted(a, now, d.attempt, d.newLease, id);
    } else {
      SpentFence(a, d.attempt, id);
    }
  }

  lemma SpentAdopted(a: Agent, now: int, x: AttemptId, lease: Option<LeaseId>, id: RunId)
    requires Spent(a, id)
    ensures Spent(Adopted(a, now, x, lease), id)
  {
  }

  lemma SpentFence(a: Agent, x: AttemptId, id: RunId)
    requires Spent(a, id)
    ensures Spent(Fence(a, x).agent, id)
  {
  }

  lemma {:induction false} SpentApplyResume(c: Config, a: Agent, now: int, ds: seq<Directive>, id: RunId)
    requires Spent(a, id)
    ensures Spent(ApplyResume(c, a, now, ds).agent, id)
  {
    if ds != [] {
      SpentApplyResume(c, a, now, ds[..|ds| - 1], id);
      SpentDirected(c, ApplyResume(c, a, now, ds[..|ds| - 1]).agent, now, ds[|ds| - 1], id);
    }
  }

  /** At the connection cap a spent run stays spent, and an event spends its run. */
  lemma SpentReact(c: Config, a: Agent, i: Input, id: RunId)
    requires Inv(c, a) && Allowed(a, i) && Bytes(React(c, a, i).agent.events) >= c.maxConn
    requires Spent(a, id) || (i.InEvent? && i.id == id)
    ensures Spent(React(c, a, i).agent, id)
  {
    hide RowsOf, Acked, Dropped, Bytes, LeaseOk, Admit, Fence, Inv, OnEvent, StreamAck, ApplyResume,
      OnDone, Assign;
    match i
    case InResume(now, ds) => SpentApplyResume(c, a, now, ds, id);
    case InEvent(_, e, ev) => SpentEvent(c, a, e, ev, id);
    case InStreamAck(now, x, lease, k) => SpentAck(c, a, now, x, lease, k, id);
    case InRevoke(_, x, _) => SpentFence(a, x, id);
    case InDone(now, e, o) => SpentDone(c, a, now, e, o, id);
    case InAssign(now, m) => SpentAssign(c, a, now, m, id);
    case _ =>
  }

  lemma SpentDone(c: Config, a: Agent, now: int, e: RunId, o: Outcome, id: RunId)
    requires Spent(a, id) && e in a.runs
    ensures Spent(OnDone(c, a, now, e, o).agent, id)
  {
    hide ResultOf;
  }

  lemma SpentAssign(c: Config, a: Agent, now: int, m: AssignMsg, id: RunId)
    requires Spent(a, id)
    ensures Spent(Assign(c, a, now, m).agent, id)
  {
    hide Admit, Existing;
  }

  lemma SpentAck(c: Config, a: Agent, now: int, x: AttemptId, lease: LeaseId, k: nat, id: RunId)
    requires Spent(a, id) && Bytes(StreamAck(c, a, now, x, lease, k).agent.events) >= c.maxConn
    ensures Spent(StreamAck(c, a, now, x, lease, k).agent, id)
  {
    hide RowsOf, Acked, Bytes, LeaseOk;
  }

  lemma SpentEvent(c: Config, a: Agent, e: RunId, ev: EngineEvent, id: RunId)
    requires Inv(c, a) && e in a.runs && Bytes(OnEvent(c, a, e, ev).agent.events) >= c.maxConn
    requires Spent(a, id) || e == id
    ensures Spent(OnEvent(c, a, e, ev).agent, id)
  {
    hide RowsOf, Bytes, NewRow;
    assert RunOk(a, e);
    hide Inv, RunOk;
  }

  /** While the connection total stays at or above its cap, each run emits at most one
      further event, and none if it was already paused. */
  lemma {:induction false} AtMostOneMore(c: Config, a: Agent, tr: seq<Input>, id: RunId)
    requires Inv(c, a) && Possible(c, a, tr) && AllHonour(c, a, tr) && Saturated(c, a, tr)
    ensures EmittedBy(c, a, tr, id) <= if Spent(a, id) then 0 else 1
    decreases |tr|
  {
    if tr != [] {
      var i := tr[0];
      InvReact(c, a, i);
      if i.InEvent? && i.id == id { assert RunOk(a, id); }
      assert Spent(a, id) && i.InEvent? && i.id == id ==> a.runs[id].fenced;
      if Spent(a, id) || (i.InEvent? && i.id == id) { SpentReact(c, a, i, id); }
      hide React, Inv, Spent;
      AtMostOneMore(c, React(c, a, i).agent, tr[1..], id);
    }
  }

  // ---- waking up ----

  /** Acknowledging everything outstanding wakes a paused run exactly when the other
      attempts leave room under the connection cap. */
  lemma AckOfEverythingResumesIff(c: Config, a: Agent, now: int, x: AttemptId, lease: LeaseId, k: nat)
    requires Inv(c, a) && CapsPositive(c)
    requires x in a.registry && Lookup(a, x).Some? && Lookup(a, x).value.paused
    requires LeaseOk(a, now, x, lease) && x in a.attempts && k >= a.attempts[x].lastSeq
    ensures var o := StreamAck(c, a, now, x, lease, k);
            && RowsOf(o.agent.events, x) == []
            && (o.calls == [Resume(a.registry[x])] <==> Bytes(Dropped(a.events, x)) < c.maxConn)
            && (o.calls == [Resume(a.registry[x])] <==> !o.agent.runs[a.registry[x]].paused)
  {
    assert LocalOk(c, a, x);
    AckedRows(c, a, x, k, x);
    var left := Acked(a.events, x, k);
    BytesSplit(left, x);
    DroppedAcked(a.events, x, k);
    hide Inv, LocalOk, RowsOf, Acked, Dropped, LeaseOk;
  }

  lemma {:induction false} DroppedAcked(rows: seq<EventRow>, x: AttemptId, k: int)
    ensures Dropped(Acked(rows, x, k), x) == Dropped(rows, x)
  {
    if rows != [] {
      var init, last := rows[..|rows| - 1], rows[|rows| - 1];
      DroppedAcked(init, x, k);
      assert (Acked(init, x, k) + [last])[..|Acked(init, x, k)|] == Acked(init, x, k);
    }
  }

  /** Paused exactly when one of the two per-attempt caps is reached. */
  ghost predicate ExactAt(c: Config, a: Agent, x: AttemptId) {
    Lookup(a, x).Some? ==> (Lookup(a, x).value.paused <==> !LocalFree(c, RowsOf(a.events, x)))
  }

  ghost predicate ConnectionFree(c: Config, a: Agent, tr: seq<Input>)
    requires Possible(c, a, tr)
    decreases |tr|
  {
    tr == [] ||
    var b := React(c, a, tr[0]).agent;
    Bytes(b.events) < c.maxConn && ConnectionFree(c, b, tr[1..])
  }

  lemma ExactAck(c: Config, a: Agent, now: int, x: AttemptId, lease: LeaseId, k: nat)
    requires Inv(c, a) && ExactAt(c, a, x)
    requires Bytes(StreamAck(c, a, now, x, lease, k).agent.events) < c.maxConn
    ensures ExactAt(c, StreamAck(c, a, now, x, lease, k).agent, x)
  {
    var j := AckLeavesSuffix(c, a, x, k);
    SuffixFlow(c, RowsOf(a.events, x), j);
    hide Inv, RowsOf, Acked, Bytes, LeaseOk, Bounded;
  }

  lemma ExactEvent(c: Config, a: Agent, id: RunId, ev: EngineEvent)
    requires Inv(c, a) && id in a.runs && a.runs[id].live && CapsPositive(c)
    requires ExactAt(c, a, a.runs[id].attempt) && Bytes(OnEvent(c, a, id, ev).agent.events) < c.maxConn
    ensures ExactAt(c, OnEvent(c, a, id, ev).agent, a.runs[id].attempt)
  {
    hide RowsOf, Bytes, NewRow;
    assert RunOk(a, id);
    hide Inv;
    var x, row := a.runs[id].attempt, NewRow(c, a.runs[id], ev);
    AppendRows(a.events, row, x);
    FewerAreFree(c, RowsOf(a.events, x), row);
  }

  lemma FewerAreFree(c: Config, rows: seq<EventRow>, row: EventRow)
    ensures LocalFree(c, rows + [row]) ==> LocalFree(c, rows)
  {
    assert (rows + [row])[..|rows|] == rows;
  }

  lemma ExactAtSubject(c: Config, a: Agent, i: Input)
    requires Inv(c, a) && Allowed(a, i) && !i.InResume? && !i.InRestart? && CapsPositive(c)
    requires ExactAt(c, a, Subject(a, i)) && Bytes(React(c, a, i).agent.events) < c.maxConn
    ensures ExactAt(c, React(c, a, i).agent, Subject(a, i))
  {
    hide Inv, RowsOf, OnEvent, StreamAck, OnDone, Assign, ResultAck, Revoke, LeaseGranted, CancelJob;
    match i
    case InStreamAck(now, x, lease, k) => ExactAck(c, a, now, x, lease, k);
    case InEvent(_, id, ev) => ExactEvent(c, a, id, ev);
    case _ => Undisturbing(c, a, i);
  }

  lemma ExactFrame(c: Config, a: Agent, b: Agent, y: AttemptId, x: AttemptId)
    requires Inv(c, a) && Elsewhere(a, b, y) && x != y && ExactAt(c, a, x)
    ensures ExactAt(c, b, x)
  {
    assert AgreeAt(a, b, x) && LocalOk(c, a, x);
    if x in a.registry { assert RunAgrees(a, b, a.registry[x], y); }
  }

  lemma ExactDirected(c: Config, a: Agent, now: int, d: Directive)
    requires Inv(c, a) && Ended(a, d) && CapsPositive(c) && forall x: AttemptId :: ExactAt(c, a, x)
    ensures forall x: AttemptId :: ExactAt(c, Directed(c, a, now, d).agent, x)
  {
    var b := Directed(c, a, now, d).agent;
    InvDirected(c, a, now, d);
    forall x: AttemptId ensures ExactAt(c, b, x) {
      assert ExactAt(c, a, x);
      if x != d.attempt {
        ExactFrame(c, a, b, d.attempt, x);
      } else {
        DirectedShape(c, a, now, d);
        assert Bytes([]) == 0;
        hide Inv, RowsOf, Bytes, Elsewhere, Directed;
      }
    }
  }

  lemma {:induction false} ExactApplyResume(c: Config, a: Agent, now: int, ds: seq<Directive>)
    requires Inv(c, a) && CapsPositive(c) && forall x: AttemptId :: ExactAt(c, a, x)
    requires forall d :: d in ds ==> Ended(a, d)
    ensures forall x: AttemptId :: ExactAt(c, ApplyResume(c, a, now, ds).agent, x)
  {
    if ds != [] {
      var init, d := ds[..|ds| - 1], ds[|ds| - 1];
      assert Ended(a, d);
      InvApplyResume(c, a, now, init);
      ExactApplyResume(c, a, now, init);
      hide Inv, Directed, ExactAt;
      ExactDirected(c, ApplyResume(c, a, now, init).agent, now, d);
    }
  }

  lemma ExactReact(c: Config, a: Agent, i: Input)
    requires Inv(c, a) && Allowed(a, i) && CapsPositive(c)
    requires Bytes(React(c, a, i).agent.events) < c.maxConn
    requires forall x: AttemptId :: ExactAt(c, a, x)
    ensures forall x: AttemptId :: ExactAt(c, React(c, a, i).agent, x)
  {
    if i.InResume? {
      ExactApplyResume(c, a, i.now, i.ds);
    } else if i.InRestart? {
    } else {
      InvReact(c, a, i);
      ExactAtSubject(c, a, i);
      hide React, ExactAt;
      forall x: AttemptId | x != Subject(a, i) ensures ExactAt(c, React(c, a, i).agent, x) {
        ExactFrame(c, a, React(c, a, i).agent, Subject(a, i), x);
      }
    }
  }

  /** No lost wakeup while the connection cap does not bind: over every such run, also of
      an engine that emits while paused, a live run is paused if and only if its own event
      cap or byte cap is reached. */
  lemma {:induction false} PausedIffOwnCap(c: Config, a: Agent, tr: seq<Input>)
    requires Inv(c, a) && Possible(c, a, tr) && ConnectionFree(c, a, tr) && CapsPositive(c)
    requires forall x: AttemptId :: ExactAt(c, a, x)
    ensures forall x: AttemptId :: ExactAt(c, After(c, a, tr), x)
    decreases |tr|
  {
    hide React, Inv, ExactAt;
    if tr != [] {
      InvReact(c, a, tr[0]);
      ExactReact(c, a, tr[0]);
      PausedIffOwnCap(c, React(c, a, tr[0]).agent, tr[1..]);
    }
  }
}
