/** Lost wake-ups: a handler looks again only at the attempt it is about, so what it frees
    under the connection cap can leave another attempt paused for nothing. */
module JobStalls {
  import opened Options
  import opened JobTypes
  import opened EventTable
  import opened JobProtocol
  import opened JobInvariant
  import opened JobRuns
  import opened JobLeases
  import opened JobAssignment
  import opened JobBackpressure

  ghost predicate Paused(a: Agent, x: AttemptId) {
    Lookup(a, x).Some? && Lookup(a, x).value.paused
  }

  /** A run left paused although no cap holds it back any more. */
  ghost predicate Stalled(c: Config, a: Agent, x: AttemptId) {
    Paused(a, x) && !OverCap(c, a, x)
  }

  // ---- what an input leaves in the event table, told from the state before it ----

  function WithoutAll(rows: seq<EventRow>, ds: seq<Directive>): seq<EventRow> {
    if ds == [] then rows
    else
      var init, d := WithoutAll(rows, ds[..|ds| - 1]), ds[|ds| - 1];
      if d.AckPending? || d.Abandon? then Dropped(init, d.attempt) else init
  }

  ghost function RowsLeft(c: Config, a: Agent, i: Input): seq<EventRow>
    requires Allowed(a, i)
  {
    match i
    case InEvent(_, id, ev) => if a.runs[id].fenced then a.events else a.events + [NewRow(c, a.runs[id], ev)]
    case InStreamAck(now, x, lease, k) => if LeaseOk(a, now, x, lease) then Acked(a.events, x, k) else a.events
    case InResultAck(now, x, lease, digest) =>
      if LeaseOk(a, now, x, lease) && x in a.results && a.results[x].digest == digest then Dropped(a.events, x) else a.events
    case InRevoke(now, x, lease) => if Lookup(a, x).Some? && LeaseOk(a, now, x, lease) then Dropped(a.events, x) else a.events
    case InResume(_, ds) => WithoutAll(a.events, ds)
    case _ => a.events
  }

  lemma DirectedLeaves(c: Config, a: Agent, now: int, d: Directive)
    ensures Directed(c, a, now, d).agent.events == WithoutAll(a.events, [d])
  {
    hide EventsAfter, Dropped, Payloads, Restamped, Adopted, Fence;
    assert [d][..0] == [];
    AdoptedIs(a, now, d.attempt, if d.ResumeFrom? || d.ResendResult? then d.newLease else None);
    FenceFacts(a, d.attempt);
  }

  lemma {:induction false} ResumeLeaves(c: Config, a: Agent, now: int, ds: seq<Directive>)
    ensures ApplyResume(c, a, now, ds).agent.events == WithoutAll(a.events, ds)
  {
    if ds != [] {
      var init, d := ds[..|ds| - 1], ds[|ds| - 1];
      ResumeLeaves(c, a, now, init);
      DirectedLeaves(c, ApplyResume(c, a, now, init).agent, now, d);
      assert [d][..0] == [];
      hide Directed, Dropped;
    }
  }

  lemma InputLeaves(c: Config, a: Agent, i: Input)
    requires Allowed(a, i)
    ensures React(c, a, i).agent.events == RowsLeft(c, a, i)
  {
    hide LeaseOk, Acked, Dropped, OverCap, Admit, NewRow;
    if i.InResume? { ResumeLeaves(c, a, i.now, i.ds); }
  }

  // ---- who is left stalled ----

  /** The input does not look at attempt `x` and leaves its run registered. */
  ghost predicate PassesBy(a: Agent, i: Input, x: AttemptId)
    requires Allowed(a, i)
  {
    if i.InRestart? then false
    else if i.InResume? then Abandon(x) !in i.ds
    else x != Subject(a, i)
  }

  /** Held back by the connection cap and nothing else. */
  ghost predicate HeldByConnection(c: Config, a: Agent, x: AttemptId) {
    Paused(a, x) && LocalFree(c, RowsOf(a.events, x)) && Bytes(a.events) >= c.maxConn
  }

  lemma StallsOtherIff(c: Config, a: Agent, i: Input, x: AttemptId)
    requires Inv(c, a) && Allowed(a, i) && !i.InResume? && !i.InRestart? && x != Subject(a, i) && !Stalled(c, a, x)
    ensures Stalled(c, React(c, a, i).agent, x) <==>
            HeldByConnection(c, a, x) && Bytes(React(c, a, i).agent.events) < c.maxConn
  {
    var b, y := React(c, a, i).agent, Subject(a, i);
    InvReact(c, a, i);
    assert AgreeAt(a, b, x) && LocalOk(c, a, x);
    if x in a.registry { assert RunAgrees(a, b, a.registry[x], y); }
    hide React, Inv, LocalOk, Elsewhere, RowsOf, Bytes;
  }

  /** No input strands the attempt it is about. */
  lemma NeverStallsOwn(c: Config, a: Agent, i: Input)
    requires Inv(c, a) && Allowed(a, i) && !i.InResume? && !i.InRestart? && !Stalled(c, a, Subject(a, i))
    ensures !Stalled(c, React(c, a, i).agent, Subject(a, i))
  {
    hide Assign, OnEvent, OnDone, StreamAck, ResultAck, LeaseGranted, CancelJob, Revoke, Inv, Stalled;
    match i
    case InAssign(now, m) => OwnAssign(c, a, now, m);
    case InEvent(_, id, ev) => OwnEvent(c, a, id, ev);
    case InDone(now, id, o) => OwnDone(c, a, now, id, o);
    case InStreamAck(now, x, lease, k) => OwnAck(c, a, now, x, lease, k);
    case InResultAck(now, x, lease, digest) => OwnResultAck(c, a, now, x, lease, digest);
    case InGranted(now, x, lease) => OwnGranted(c, a, now, x, lease);
    case InCancel(now, x, lease, grace) => OwnCancel(c, a, now, x, lease, grace);
    case InRevoke(now, x, lease) => OwnRevoke(c, a, now, x, lease);
  }

  lemma OwnDone(c: Config, a: Agent, now: int, id: RunId, o: Outcome)
    requires Inv(c, a) && id in a.runs && a.runs[id].live && !Stalled(c, a, a.runs[id].attempt)
    ensures !Stalled(c, OnDone(c, a, now, id, o).agent, a.runs[id].attempt)
  {
    assert RunOk(a, id);
    hide Inv, RunOk, RowsOf, Bytes, ResultOf;
  }

  lemma OwnGranted(c: Config, a: Agent, now: int, x: AttemptId, lease: LeaseId)
    requires !Stalled(c, a, x)
    ensures !Stalled(c, LeaseGranted(a, now, x, lease).agent, x)
  {
    hide RowsOf, Bytes;
  }

  lemma OwnCancel(c: Config, a: Agent, now: int, x: AttemptId, lease: LeaseId, grace: nat)
    requires !Stalled(c, a, x)
    ensures !Stalled(c, CancelJob(a, now, x, lease, grace).agent, x)
  {
    hide LeaseOk, RowsOf, Bytes;
  }

  lemma OwnRevoke(c: Config, a: Agent, now: int, x: AttemptId, lease: LeaseId)
    requires !Stalled(c, a, x)
    ensures !Stalled(c, Revoke(a, now, x, lease).agent, x)
  {
    hide LeaseOk, RowsOf, Bytes, Dropped;
  }

  lemma OwnAssign(c: Config, a: Agent, now: int, m: AssignMsg)
    requires Inv(c, a) && !Stalled(c, a, m.attempt)
    ensures !Stalled(c, Assign(c, a, now, m).agent, m.attempt)
  {
    if m.attempt in a.attempts { DuplicateAssign(c, a, now, m); }
    hide Inv, Admit, RowsOf, Bytes;
  }

  lemma OwnEvent(c: Config, a: Agent, id: RunId, ev: EngineEvent)
    requires Inv(c, a) && id in a.runs && a.runs[id].live && !Stalled(c, a, a.runs[id].attempt)
    ensures !Stalled(c, OnEvent(c, a, id, ev).agent, a.runs[id].attempt)
  {
    assert RunOk(a, id);
    if !a.runs[id].fenced { OverGrows(c, a, NewRow(c, a.runs[id], ev)); }
    hide Inv, RunOk, RowsOf, Bytes, NewRow;
  }

  /** One more row never brings an attempt below its caps. */
  lemma OverGrows(c: Config, a: Agent, row: EventRow)
    ensures OverCap(c, a, row.attempt) ==>
              forall b: Agent :: b.events == a.events + [row] ==> OverCap(c, b, row.attempt)
  {
    var rows := RowsOf(a.events, row.attempt);
    AppendRows(a.events, row, row.attempt);
    AppendRows(rows, row, row.attempt);
    hide RowsOf, Bytes;
  }

  lemma OwnAck(c: Config, a: Agent, now: int, x: AttemptId, lease: LeaseId, k: nat)
    requires !Stalled(c, a, x)
    ensures !Stalled(c, StreamAck(c, a, now, x, lease, k).agent, x)
  {
    hide LeaseOk, RowsOf, Bytes, Acked;
  }

  lemma OwnResultAck(c: Config, a: Agent, now: int, x: AttemptId, lease: LeaseId, digest: Digest)
    requires !Stalled(c, a, x)
    ensures !Stalled(c, ResultAck(a, now, x, lease, digest).agent, x)
  {
    hide LeaseOk, RowsOf, Bytes, Dropped;
  }

  // ---- resume lists ----

  lemma {:induction false} RowsShrink(rows: seq<EventRow>, ds: seq<Directive>, x: AttemptId)
    ensures Bytes(WithoutAll(rows, ds)) <= Bytes(rows)
  {
    if ds != [] {
      RowsShrink(rows, ds[..|ds| - 1], x);
      BytesSplit(WithoutAll(rows, ds[..|ds| - 1]), ds[|ds| - 1].attempt);
    }
  }

  /** One directive keeps the pause and the rows of every attempt it does not drop. */
  lemma DirectedPasses(c: Config, a: Agent, now: int, d: Directive, x: AttemptId)
    requires Inv(c, a) && Ended(a, d)
    ensures var b := Directed(c, a, now, d).agent;
            && (d == Abandon(x) ==> !Paused(b, x))
            && (d != Abandon(x) ==> (Paused(b, x) <==> Paused(a, x)))
            && (Paused(b, x) ==> RowsOf(b.events, x) == RowsOf(a.events, x))
  {
    hide Directed, Paused, RowsOf;
    if d.attempt != x { PassesOther(c, a, now, d, x); } else { PassesOwn(c, a, now, d); }
  }

  lemma PassesOther(c: Config, a: Agent, now: int, d: Directive, x: AttemptId)
    requires Inv(c, a) && Ended(a, d) && d.attempt != x
    ensures var b := Directed(c, a, now, d).agent;
            (Paused(b, x) <==> Paused(a, x)) && RowsOf(b.events, x) == RowsOf(a.events, x)
  {
    var b := Directed(c, a, now, d).agent;
    InvDirected(c, a, now, d);
    assert AgreeAt(a, b, x) && LocalOk(c, a, x);
    if x in a.registry { assert RunAgrees(a, b, a.registry[x], d.attempt); }
    hide Directed, Inv, Elsewhere, RowsOf;
  }

  lemma PassesOwn(c: Config, a: Agent, now: int, d: Directive)
    requires Ended(a, d)
    ensures var b := Directed(c, a, now, d).agent;
            && (Paused(b, d.attempt) <==> Paused(a, d.attempt) && !d.Abandon?)
            && (Paused(b, d.attempt) ==> RowsOf(b.events, d.attempt) == RowsOf(a.events, d.attempt))
  {
    hide RowsOf, EventsAfter, Dropped, Payloads, Restamped, Adopted, Fence;
    var x := d.attempt;
    if d.ResumeFrom? || d.ResendResult? { AdoptedPauses(a, now, x, d.newLease); } else { FenceFacts(a, x); }
  }

  lemma AdoptedPauses(a: Agent, now: int, x: AttemptId, lease: Option<LeaseId>)
    ensures Adopted(a, now, x, lease).events == a.events && (Paused(Adopted(a, now, x, lease), x) <==> Paused(a, x))
  {
    hide Adopted;
    AdoptedIs(a, now, x, lease);
  }

  lemma {:induction false} ResumePasses(c: Config, a: Agent, now: int, ds: seq<Directive>, x: AttemptId)
    requires Inv(c, a) && forall d :: d in ds ==> Ended(a, d)
    ensures var b := ApplyResume(c, a, now, ds).agent;
            && (Paused(b, x) <==> Paused(a, x) && Abandon(x) !in ds)
            && (Paused(b, x) ==> RowsOf(b.events, x) == RowsOf(a.events, x))
  {
    if ds != [] {
      var init, d := ds[..|ds| - 1], ds[|ds| - 1];
      assert ds == init + [d] && Ended(a, d);
      InvApplyResume(c, a, now, init);
      ResumePasses(c, a, now, init, x);
      hide Inv, Directed, Paused, RowsOf;
      DirectedPasses(c, ApplyResume(c, a, now, init).agent, now, d, x);
    }
  }

  /** Exactly when an input leaves an attempt paused with no cap holding it, told from the
      state before: the connection cap alone held it, the input is about other attempts,
      and what it removes brings the total below that cap. */
  lemma StallsIff(c: Config, a: Agent, i: Input, x: AttemptId)
    requires Inv(c, a) && Allowed(a, i) && !Stalled(c, a, x)
    ensures Stalled(c, React(c, a, i).agent, x) <==>
            PassesBy(a, i, x) && HeldByConnection(c, a, x) && Bytes(RowsLeft(c, a, i)) < c.maxConn
  {
    InputLeaves(c, a, i);
    if i.InResume? {
      ResumePasses(c, a, i.now, i.ds, x);
      RowsShrink(a.events, i.ds, x);
      hide ApplyResume, Inv, RowsOf, Bytes, WithoutAll, Paused;
    } else if i.InRestart? {
      hide Inv, RowsOf, Bytes;
    } else if x == Subject(a, i) {
      NeverStallsOwn(c, a, i);
      hide React, Inv, Stalled, RowsLeft;
    } else {
      StallsOtherIff(c, a, i, x);
      hide React, Inv, Stalled, RowsLeft, HeldByConnection;
    }
  }

  // ---- such states are reached ----

  const EXAMPLE_EVENT: EngineEvent := EngineEvent("assistant_text", "")

  predicate ExampleRun(a: Agent, x: AttemptId, id: RunId, lease: LeaseId, seqNo: nat) {
    && x in a.registry && a.registry[x] == id && id in a.runs
    && a.runs[id].attempt == x && a.runs[id].lease == lease && a.runs[id].seqNo == seqNo
    && a.runs[id].live && !a.runs[id].fenced && (a.runs[id].paused <==> seqNo > 0)
  }

  lemma ExampleAssign(c: Config, a: Agent, m: AssignMsg)
    requires m.attempt !in a.registry && m.attempt !in a.attempts && Admit(c, a, m).None?
    ensures var b := React(c, a, InAssign(0, m)).agent;
            && b == Begin(a, 0, m).agent && b.nextId == a.nextId + 1 && b.events == a.events
            && b.registry == a.registry[m.attempt := a.nextId]
            && b.attempts.Keys == a.attempts.Keys + {m.attempt}
            && ExampleRun(b, m.attempt, a.nextId, m.lease, 0)
            && (forall id :: id in a.runs && id != a.nextId ==> id in b.runs && b.runs[id] == a.runs[id])
  {
    hide Admit, RowsOf, Bytes, OverCap;
    assert React(c, a, InAssign(0, m)) == Begin(a, 0, m);
    var b := Begin(a, 0, m).agent;
    assert b.attempts.Keys == a.attempts.Keys + {m.attempt};
  }

  lemma ExampleEmit(c: Config, a: Agent, x: AttemptId, id: RunId, lease: LeaseId)
    requires c.maxConn == 1 && (forall m: Msg :: c.size(m) == 1) && ExampleRun(a, x, id, lease, 0)
    ensures var b := React(c, a, InEvent(0, id, EXAMPLE_EVENT)).agent;
            && ExampleRun(b, x, id, lease, 1) && b.registry == a.registry
            && |b.events| == |a.events| + 1 && b.events[..|a.events|] == a.events
            && b.events[|a.events|].attempt == x && b.events[|a.events|].seqNo == 1 && b.events[|a.events|].bytes == 1
            && (forall i :: i in a.runs && i != id ==> i in b.runs && b.runs[i] == a.runs[i])
  {
    hide Assign;
    var row := NewRow(c, a.runs[id], EXAMPLE_EVENT);
    AppendRows(a.events, row, x);
  }

  /** Two attempts under a connection cap of one byte. Whether it is an ack, a revocation
      or an `abandon` of the one that frees the connection: the other one is stranded. */
  lemma LostWakeupExample(size: Msg -> nat, digest: ResultBody -> Digest, last: Input)
    requires forall m: Msg :: size(m) == 1
    requires last == InStreamAck(0, 8, 80, 1) || last == InRevoke(0, 8, 80) || last == InResume(0, [Abandon(8)])
    ensures var c := Config(10, 10, 1, 2, true, size, digest);
            exists tr: seq<Input> ::
              tr != [] && tr[|tr| - 1] == last && Possible(c, EmptyAgent, tr) && Stalled(c, After(c, EmptyAgent, tr), 7)
  {
    var c := Config(10, 10, 1, 2, true, size, digest);
    var i7, i8 := InAssign(0, AssignMsg(0, 7, 70, false, None)), InAssign(0, AssignMsg(0, 8, 80, false, None));
    hide React, Possible, After, Stalled, ExampleRun;
    ExampleStart(c, i7, i8);
    var a1 := React(c, EmptyAgent, i7).agent;
    var tr := ExampleStall(c, React(c, a1, i8).agent, last);
    Prepend(c, a1, i8, tr);
    Prepend(c, EmptyAgent, i7, [i8] + tr);
    EndsWith(i7, i8, tr);
  }

  lemma ExampleStart(c: Config, i7: Input, i8: Input)
    requires c.maxConcurrent == 2 && c.gateAvailable
    requires i7 == InAssign(0, AssignMsg(0, 7, 70, false, None)) && i8 == InAssign(0, AssignMsg(0, 8, 80, false, None))
    ensures var a := React(c, React(c, EmptyAgent, i7).agent, i8).agent;
            ExampleRun(a, 7, 0, 70, 0) && ExampleRun(a, 8, 1, 80, 0) && a.events == []
  {
    ExampleAssign(c, EmptyAgent, i7.m);
    var a1 := React(c, EmptyAgent, i7).agent;
    assert a1.registry == map[7 := 0];
    ExampleAssign(c, a1, i8.m);
    hide React;
  }

  lemma ExampleStall(c: Config, a: Agent, last: Input) returns (tr: seq<Input>)
    requires last == InStreamAck(0, 8, 80, 1) || last == InRevoke(0, 8, 80) || last == InResume(0, [Abandon(8)])
    requires c.maxEvents == 10 && c.maxBytes == 10 && c.maxConn == 1 && forall m: Msg :: c.size(m) == 1
    requires ExampleRun(a, 7, 0, 70, 0) && ExampleRun(a, 8, 1, 80, 0) && a.events == []
    ensures tr != [] && tr[|tr| - 1] == last && Possible(c, a, tr) && Stalled(c, After(c, a, tr), 7)
  {
    hide React, Possible, After, Stalled;
    var i2, i3 := InEvent(0, 0, EXAMPLE_EVENT), InEvent(0, 1, EXAMPLE_EVENT);
    var i4, i5 := InStreamAck(0, 7, 70, 1), last;
    ExampleEmit(c, a, 7, 0, 70);
    var a3 := React(c, a, i2).agent;
    ExampleEmit(c, a3, 8, 1, 80);
    var a4 := React(c, a3, i3).agent;
    ExampleAcks(c, a4, last);
    var a5 := React(c, a4, i4).agent;
    NoMore(c, React(c, a5, i5).agent);
    Prepend(c, a5, i5, []);
    Prepend(c, a4, i4, [i5] + []);
    Prepend(c, a3, i3, [i4] + ([i5] + []));
    Prepend(c, a, i2, [i3] + ([i4] + ([i5] + [])));
    tr := [i2] + ([i3] + ([i4] + ([i5] + [])));
  }

  lemma EndsWith(i: Input, j: Input, tr: seq<Input>)
    requires tr != []
    ensures var all := [i] + ([j] + tr); all != [] && all[|all| - 1] == tr[|tr| - 1]
  {
  }

  lemma NoMore(c: Config, a: Agent)
    ensures Possible(c, a, []) && After(c, a, []) == a
  {
  }

  lemma Prepend(c: Config, a: Agent, i: Input, tr: seq<Input>)
    requires Allowed(a, i) && Possible(c, React(c, a, i).agent, tr)
    ensures Possible(c, a, [i] + tr)
    ensures After(c, a, [i] + tr) == After(c, React(c, a, i).agent, tr)
  {
    assert ([i] + tr)[1..] == tr;
  }

  lemma ExampleAcks(c: Config, a: Agent, last: Input)
    requires c.maxEvents == 10 && c.maxBytes == 10 && c.maxConn == 1
    requires ExampleRun(a, 7, 0, 70, 1) && ExampleRun(a, 8, 1, 80, 1)
    requires |a.events| == 2 && a.events[0].attempt == 7 && a.events[1].attempt == 8
    requires forall i :: 0 <= i < 2 ==> a.events[i].seqNo == 1 && a.events[i].bytes == 1
    requires last == InStreamAck(0, 8, 80, 1) || last == InRevoke(0, 8, 80) || last == InResume(0, [Abandon(8)])
    ensures var b := React(c, a, InStreamAck(0, 7, 70, 1)).agent;
            Allowed(b, last) && Stalled(c, React(c, b, last).agent, 7)
  {
    ExampleTables(c, a);
    var s := a.events[1];
    hide Acked, Dropped;
    FirstAck(c, a, s);
    hide RowsOf, Bytes, React;
    var b := React(c, a, InStreamAck(0, 7, 70, 1)).agent;
    if last.InStreamAck? { SecondAck(c, b, s); } else if last.InRevoke? { ThenRevoked(c, b, s); } else { ThenAbandoned(c, b, s); }
  }

  /** The first ack is accepted and leaves the connection at its cap. */
  lemma FirstAck(c: Config, a: Agent, s: EventRow)
    requires c.maxConn == 1 && ExampleRun(a, 7, 0, 70, 1) && Acked(a.events, 7, 1) == [s] && Bytes([s]) == 1
    ensures React(c, a, InStreamAck(0, 7, 70, 1)).agent == a.(events := [s])
  {
    hide RowsOf, Acked, Bytes;
  }

  /** The second empties the table and wakes its own run only. */
  lemma SecondAck(c: Config, b: Agent, s: EventRow)
    requires c.maxEvents == 10 && c.maxBytes == 10 && c.maxConn == 1
    requires ExampleRun(b, 7, 0, 70, 1) && ExampleRun(b, 8, 1, 80, 1) && b.events == [s] && Acked([s], 8, 1) == []
    ensures Stalled(c, React(c, b, InStreamAck(0, 8, 80, 1)).agent, 7)
  {
    hide Acked;
    assert React(c, b, InStreamAck(0, 8, 80, 1)).agent.events == [];
  }

  lemma ThenRevoked(c: Config, b: Agent, s: EventRow)
    requires c.maxEvents == 10 && c.maxBytes == 10 && c.maxConn == 1
    requires ExampleRun(b, 7, 0, 70, 1) && ExampleRun(b, 8, 1, 80, 1) && b.events == [s] && Dropped([s], 8) == []
    ensures Stalled(c, React(c, b, InRevoke(0, 8, 80)).agent, 7)
  {
    hide Dropped;
    assert React(c, b, InRevoke(0, 8, 80)).agent.events == [];
  }

  lemma ThenAbandoned(c: Config, b: Agent, s: EventRow)
    requires c.maxEvents == 10 && c.maxBytes == 10 && c.maxConn == 1
    requires ExampleRun(b, 7, 0, 70, 1) && ExampleRun(b, 8, 1, 80, 1) && b.events == [s] && Dropped([s], 8) == []
    ensures Stalled(c, React(c, b, InResume(0, [Abandon(8)])).agent, 7)
  {
    hide Dropped;
    assert [Abandon(8)][..0] == [];
    var e := Directed(c, b, 0, Abandon(8)).agent;
    assert ApplyResume(c, b, 0, []) == Quiet(b);
    assert React(c, b, InResume(0, [Abandon(8)])).agent == e;
    assert e.events == [];
  }

  lemma ExampleTables(c: Config, a: Agent)
    requires |a.events| == 2 && a.events[0].attempt == 7 && a.events[1].attempt == 8
    requires forall i :: 0 <= i < 2 ==> a.events[i].seqNo == 1 && a.events[i].bytes == 1
    ensures var s := a.events[1];
            Acked(a.events, 7, 1) == [s] && Acked([s], 8, 1) == [] && Dropped([s], 8) == [] && Bytes([s]) == 1
  {
    var r, s := a.events[0], a.events[1];
    EmptyTable(7, 1);
    EmptyTable(8, 1);
    assert Dropped([s], 8) == [] by { assert [s][..0] == []; }
    hide Acked, Bytes;
    assert a.events == [r] + [s];
    AckedSnoc([r], s, 7, 1);
    AckedSnoc([], r, 7, 1);
    assert [] + [r] == [r] && [] + [s] == [s];
    AckedSnoc([], s, 8, 1);
    AppendRows([], s, 8);
  }

  lemma EmptyTable(x: AttemptId, k: int)
    ensures Acked([], x, k) == [] && Bytes([]) == 0
  {
  }
}
