/** The turn table and the runs that feed it, together: a run hands each event to the table
    from inside its callback, the table pauses and resumes the run, and the end of the run
    ends the turn. Both machines are the ones proved correct on their own. */
module SessionWindow {
  import opened Options
  import opened LineStream
  import opened StreamTheorems
  import S = SessionTurns

  // ---- one run under a window ----

  /** A callback that pauses on the first event that fills the window of `cap` events
      after `acked`. What it would do beyond that does not matter. */
  ghost predicate Deciding(wants: Callback, cap: nat, acked: nat, from: nat) {
    forall n: nat :: n > from && (n == 1 || n - 1 - acked < cap) ==> (wants(n) <==> n - acked >= cap)
  }

  ghost predicate AtCap(cap: nat, sent: nat, acked: nat) {
    sent > 0 && sent - acked >= cap
  }

  /** While the run is not over it is paused exactly when the window is full, and the
      window is never overfull. */
  ghost predicate InWindow<E>(cap: nat, s: Run<E>, acked: nat) {
    var sent := |s.delivered|;
    && acked <= sent
    && (!s.finished ==> (s.paused <==> AtCap(cap, sent, acked)) && sent - acked <= S.Max(cap, 1))
  }

  ghost predicate Grown<E>(s: Run<E>, t: Run<E>) {
    |s.delivered| <= |t.delivered| && t.delivered[..|s.delivered|] == s.delivered
  }

  lemma GrownTrans<E>(s: Run<E>, t: Run<E>, u: Run<E>)
    requires Grown(s, t) && Grown(t, u)
    ensures Grown(s, u)
  {
    assert u.delivered[..|s.delivered|] == u.delivered[..|t.delivered|][..|s.delivered|];
  }

  lemma DeliverGrows<E>(s: Run<E>, e: Event<E>, wants: Callback)
    ensures Grown(s, Deliver(s, e, wants)) && Grown(s, Emit(s, e, wants))
  {
  }

  lemma {:induction false} EmitLinesGrow<E>(s: Run<E>, es: seq<E>, wants: Callback)
    ensures Grown(s, EmitLines(s, es, wants))
  {
    if es != [] {
      var t := EmitLines(s, es[..|es| - 1], wants);
      EmitLinesGrow(s, es[..|es| - 1], wants);
      DeliverGrows(t, Line(es[|es| - 1]), wants);
      GrownTrans(s, t, EmitLines(s, es, wants));
    }
  }

  lemma {:induction false} DrainGrows<E>(p: Parser<E>, s: Run<E>, flush: bool, wants: Callback)
    ensures Grown(s, Drain(p, s, flush, wants))
    decreases |s.buf|
  {
    hide EmitLines;
    var i := IndexOf(s.buf);
    if i >= 0 {
      var s1 := s.(buf := s.buf[i + 1..], parsed := s.parsed + [s.buf[..i]]);
      var t := ParseAndEmit(p, s.(buf := s.buf[i + 1..]), s.buf[..i], wants);
      EmitLinesGrow(s1, Parse(p, s.buf[..i]), wants);
      EmitKeepsBuf(s1, Parse(p, s.buf[..i]), wants);
      DrainGrows(p, t, flush, wants);
      GrownTrans(s, t, Drain(p, t, flush, wants));
    } else if flush && !p.blank(s.buf) {
      EmitLinesGrow(s.(buf := "", flushed := true, parsed := s.parsed + [s.buf]), Parse(p, s.buf), wants);
    }
  }

  lemma {:induction false} FlushGrows<E>(s: Run<E>, wants: Callback)
    ensures Grown(s, FlushPending(s, wants))
    decreases |s.pending|
  {
    if !s.paused && s.pending != [] {
      var s1 := s.(pending := s.pending[1..]);
      var t := Deliver(s1, s.pending[0], wants);
      DeliverGrows(s1, s.pending[0], wants);
      FlushGrows(t, wants);
      GrownTrans(s, t, FlushPending(t, wants));
    }
  }

  lemma CloseGrows<E>(p: Parser<E>, s: Run<E>, wants: Callback)
    ensures Grown(s, MaybeFinishClosed(p, s, wants))
  {
    DrainGrows(p, s, true, wants);
    hide Drain;
  }

  lemma ResumeGrows<E>(p: Parser<E>, s: Run<E>, wants: Callback)
    ensures Grown(s, ResumeCall(p, s, wants))
  {
    hide Drain, FlushPending, MaybeFinishClosed;
    var s1 := FlushPending(s.(paused := false), wants);
    var s2 := Drain(p, s1, s1.closed.Some?, wants);
    FlushGrows(s.(paused := false), wants);
    DrainGrows(p, s1, s1.closed.Some?, wants);
    CloseGrows(p, s2, wants);
    GrownTrans(s, s1, s2);
    GrownTrans(s, s2, MaybeFinishClosed(p, s2, wants));
  }

  /** What was delivered stays delivered. */
  lemma ReactGrows<E>(p: Parser<E>, s: Run<E>, input: Input, wants: Callback)
    ensures Grown(s, React(p, s, input, wants))
  {
    hide Drain, ResumeCall, MaybeFinishClosed;
    match input
    case Data(chunk) => DrainGrows(p, s.(buf := s.buf + chunk, received := s.received + chunk), false, wants);
    case Close(outcome) => CloseGrows(p, s.(closed := Some(if s.cancelled then Cancelled else outcome)), wants);
    case Resume => ResumeGrows(p, s, wants);
    case _ =>
  }

  lemma DeliverInWindow<E>(cap: nat, s: Run<E>, acked: nat, e: Event<E>, wants: Callback, from: nat)
    requires InWindow(cap, s, acked) && !s.paused && !s.finished && from <= |s.delivered| && Deciding(wants, cap, acked, from)
    ensures InWindow(cap, Deliver(s, e, wants), acked)
  {
  }

  lemma EmitInWindow<E>(cap: nat, s: Run<E>, acked: nat, e: Event<E>, wants: Callback, from: nat)
    requires InWindow(cap, s, acked) && from <= |s.delivered| && Deciding(wants, cap, acked, from)
    ensures InWindow(cap, Emit(s, e, wants), acked)
  {
    hide Deciding;
    if !s.paused && !s.finished { DeliverInWindow(cap, s, acked, e, wants, from); }
  }

  lemma {:induction false} EmitLinesInWindow<E>(cap: nat, s: Run<E>, acked: nat, es: seq<E>, wants: Callback, from: nat)
    requires InWindow(cap, s, acked) && from <= |s.delivered| && Deciding(wants, cap, acked, from)
    ensures InWindow(cap, EmitLines(s, es, wants), acked)
  {
    hide Deciding;
    if es != [] {
      var t := EmitLines(s, es[..|es| - 1], wants);
      EmitLinesInWindow(cap, s, acked, es[..|es| - 1], wants, from);
      EmitLinesGrow(s, es[..|es| - 1], wants);
      EmitInWindow(cap, t, acked, Line(es[|es| - 1]), wants, from);
      hide InWindow, Emit;
    }
  }

  lemma {:induction false} DrainInWindow<E>(p: Parser<E>, cap: nat, s: Run<E>, acked: nat, flush: bool, wants: Callback, from: nat)
    requires InWindow(cap, s, acked) && from <= |s.delivered| && Deciding(wants, cap, acked, from)
    ensures InWindow(cap, Drain(p, s, flush, wants), acked)
    decreases |s.buf|
  {
    hide Deciding, EmitLines;
    var i := IndexOf(s.buf);
    if i >= 0 {
      var s1 := s.(buf := s.buf[i + 1..], parsed := s.parsed + [s.buf[..i]]);
      var t := ParseAndEmit(p, s.(buf := s.buf[i + 1..]), s.buf[..i], wants);
      EmitLinesInWindow(cap, s1, acked, Parse(p, s.buf[..i]), wants, from);
      EmitLinesGrow(s1, Parse(p, s.buf[..i]), wants);
      EmitKeepsBuf(s1, Parse(p, s.buf[..i]), wants);
      DrainInWindow(p, cap, t, acked, flush, wants, from);
    } else if flush && !p.blank(s.buf) {
      EmitLinesInWindow(cap, s.(buf := "", flushed := true, parsed := s.parsed + [s.buf]), acked, Parse(p, s.buf), wants, from);
    }
  }

  lemma {:induction false} FlushInWindow<E>(cap: nat, s: Run<E>, acked: nat, wants: Callback, from: nat)
    requires InWindow(cap, s, acked) && !s.finished && from <= |s.delivered| && Deciding(wants, cap, acked, from)
    ensures InWindow(cap, FlushPending(s, wants), acked)
    ensures !FlushPending(s, wants).finished
    decreases |s.pending|
  {
    hide Deciding;
    if !s.paused && s.pending != [] {
      var s1 := s.(pending := s.pending[1..]);
      var t := Deliver(s1, s.pending[0], wants);
      DeliverInWindow(cap, s1, acked, s.pending[0], wants, from);
      FlushInWindow(cap, t, acked, wants, from);
    }
  }

  lemma CloseInWindow<E>(p: Parser<E>, cap: nat, s: Run<E>, acked: nat, wants: Callback, from: nat)
    requires InWindow(cap, s, acked) && from <= |s.delivered| && Deciding(wants, cap, acked, from)
    ensures InWindow(cap, MaybeFinishClosed(p, s, wants), acked)
  {
    DrainInWindow(p, cap, s, acked, true, wants, from);
    hide Drain, Deciding;
  }

  /** `resume` on a window that has room again. */
  lemma ResumeInWindow<E>(p: Parser<E>, cap: nat, s: Run<E>, acked: nat, wants: Callback, from: nat)
    requires acked <= |s.delivered| && from <= |s.delivered| && Deciding(wants, cap, acked, from)
    requires !s.finished ==> s.paused && |s.delivered| - acked < cap && |s.delivered| > 0
    ensures InWindow(cap, ResumeCall(p, s, wants), acked)
  {
    hide Deciding;
    if !s.finished {
      var s0 := s.(paused := false);
      var s1 := FlushPending(s0, wants);
      FlushInWindow(cap, s0, acked, wants, from);
      FlushGrows(s0, wants);
      if !s1.paused {
        var s2 := Drain(p, s1, s1.closed.Some?, wants);
        DrainInWindow(p, cap, s1, acked, s1.closed.Some?, wants, from);
        DrainGrows(p, s1, s1.closed.Some?, wants);
        CloseInWindow(p, cap, s2, acked, wants, from);
          }
      hide InWindow, Drain, FlushPending, MaybeFinishClosed;
    }
  }

  predicate FromOutside(input: Input) {
    !input.Pause? && !input.Resume?
  }

  lemma InputInWindow<E>(p: Parser<E>, cap: nat, s: Run<E>, acked: nat, input: Input, wants: Callback, from: nat)
    requires InWindow(cap, s, acked) && from <= |s.delivered| && Deciding(wants, cap, acked, from) && FromOutside(input)
    ensures InWindow(cap, React(p, s, input, wants), acked)
  {
    hide Deciding, Drain, MaybeFinishClosed;
    match input
    case Data(chunk) =>
      DrainInWindow(p, cap, s.(buf := s.buf + chunk, received := s.received + chunk), acked, false, wants, from);
    case Stderr(text) => EmitInWindow(cap, s.(notes := s.notes + [StderrChunk(text)]), acked, StderrChunk(text), wants, from);
    case SpawnError(text) =>
      EmitInWindow(cap, s.(notes := s.notes + [EngineError(text)]), acked, EngineError(text), wants, from);
    case Close(outcome) =>
      CloseInWindow(p, cap, s.(closed := Some(if s.cancelled then Cancelled else outcome)), acked, wants, from);
    case _ =>
  }

  // ---- table and runs ----

  /** `runs` holds the run of every turn ever started; `show` is what an event looks like
      to the client. */
  datatype World<!E> = World(sessions: S.Sessions, runs: map<S.TurnId, Run<E>>)

  /** Hand events to the table, one by one. */
  function Handed<E>(c: S.Config, s: S.Sessions, t: S.TurnId, es: seq<Event<E>>, show: Event<E> -> string): S.Sessions {
    if es == [] then s else S.RunEvent(c, Handed(c, s, t, es[..|es| - 1], show), t, show(es[|es| - 1]))
  }

  function HandedSome(c: S.Config, s: S.Sessions, t: S.TurnId, k: nat): S.Sessions {
    if k == 0 then s else S.RunEvent(c, HandedSome(c, s, t, k - 1), t, "")
  }

  /** What the table decides from inside the callback: the n-th event of the run of `t` is
      the one on which it calls `pause`. */
  function Asks(c: S.Config, s: S.Sessions, t: S.TurnId, sofar: nat): Callback {
    (n: nat) => n > sofar && var before := HandedSome(c, s, t, n - 1 - sofar);
                             S.RunEvent(c, before, t, "").calls == before.calls + [S.PauseRun(t)]
  }

  function NewEvents<E>(r: Run<E>, r2: Run<E>): seq<Event<E>> {
    if |r.delivered| <= |r2.delivered| then r2.delivered[|r.delivered|..] else []
  }

  function OutcomeFor(r: Report): S.RunOutcome {
    match Reported(r)
    case Success => S.RunSuccess
    case Failed(_) => S.RunError
    case Cancelled => S.RunCancelled
  }

  /** What the run says of itself when it is done. */
  datatype Closing = Closing(message: string, newSession: Option<string>)

  /** The run of `t` handles an input: its events go to the table, and so does its end. */
  function Runs<E>(p: Parser<E>, c: S.Config, show: Event<E> -> string, w: World<E>, t: S.TurnId, input: Input, done: Closing): World<E>
    requires t in w.runs
  {
    var r := w.runs[t];
    var r2 := React(p, r, input, Asks(c, w.sessions, t, |r.delivered|));
    var s1 := Handed(c, w.sessions, t, NewEvents(r, r2), show);
    var s2 := if r.report.None? && r2.report.Some?
              then S.RunDone(s1, t, OutcomeFor(r2.report.value), done.message, done.newSession) else s1;
    World(s2, w.runs[t := r2])
  }

  datatype Step =
    | Begin(request: nat, target: Option<S.Target>, failure: Option<string>)
    | Process(turn: S.TurnId, input: Input, done: Closing)
    | Acknowledge(turn: S.TurnId, ackSeq: nat, done: Closing)
    | CancelOne(turn: S.TurnId)
    | TimeOut(turn: S.TurnId)
    | CloseAll

  function Stopped<E>(p: Parser<E>, r: Run<E>): Run<E> {
    React(p, r, Cancel, n => false)
  }

  function Next<E>(p: Parser<E>, c: S.Config, show: Event<E> -> string, w: World<E>, step: Step): World<E> {
    match step
    case Begin(request, target, failure) =>
      var s := S.Start(c, w.sessions, request, target, failure);
      World(s, if w.sessions.nextTurn in s.turns then w.runs[w.sessions.nextTurn := Fresh()] else w.runs)
    case Process(t, input, done) => if t in w.runs then Runs(p, c, show, w, t, input, done) else w
    case Acknowledge(t, k, done) =>
      var s := S.Ack(c, w.sessions, t, k);
      if s.calls == w.sessions.calls + [S.ResumeRun(t)] && t in w.runs
      then Runs(p, c, show, World(s, w.runs), t, Resume, done) else World(s, w.runs)
    case CancelOne(t) =>
      World(S.CancelTurn(w.sessions, t), if t in w.sessions.turns && t in w.runs then w.runs[t := Stopped(p, w.runs[t])] else w.runs)
    case TimeOut(t) =>
      World(S.Timeout(w.sessions, t), if t in w.sessions.turns && t in w.runs then w.runs[t := Stopped(p, w.runs[t])] else w.runs)
    case CloseAll =>
      World(S.CancelAll(w.sessions, w.sessions.order),
            map t | t in w.runs :: if t in w.sessions.turns then Stopped(p, w.runs[t]) else w.runs[t])
  }

  /** The process closes once, after its output, and only the table pauses and resumes. */
  predicate Allowed<E>(w: World<E>, step: Step) {
    step.Process? ==> FromOutside(step.input) && (step.turn in w.runs ==> Enabled(w.runs[step.turn], step.input))
  }

  ghost predicate Possible<E>(p: Parser<E>, c: S.Config, show: Event<E> -> string, steps: seq<Step>) {
    steps == [] ||
    (var init := steps[..|steps| - 1];
     Possible(p, c, show, init) && Allowed(After(p, c, show, init), steps[|steps| - 1]))
  }

  ghost function After<E>(p: Parser<E>, c: S.Config, show: Event<E> -> string, steps: seq<Step>): World<E> {
    if steps == [] then World(S.NoSessions, map[])
    else Next(p, c, show, After(p, c, show, steps[..|steps| - 1]), steps[|steps| - 1])
  }

  // ---- what the client is sent ----

  /** The events of one turn, in order. */
  function Sent(log: seq<S.Msg>, t: S.TurnId): seq<string> {
    if log == [] then []
    else
      var init, last := Sent(log[..|log| - 1], t), log[|log| - 1];
      if last.Event? && last.turn == t then init + [last.event] else init
  }

  function Shown<E>(es: seq<Event<E>>, show: Event<E> -> string): (r: seq<string>)
    ensures |r| == |es|
  {
    if es == [] then [] else Shown(es[..|es| - 1], show) + [show(es[|es| - 1])]
  }

  lemma SentSnoc(log: seq<S.Msg>, m: S.Msg, t: S.TurnId)
    ensures Sent(log + [m], t) == if m.Event? && m.turn == t then Sent(log, t) + [m.event] else Sent(log, t)
  {
    assert (log + [m])[..|log|] == log;
  }

  /** A live turn has an unfinished run; table and run agree on how many events there were
      and on the pause, and the client was sent exactly what the run delivered. */
  ghost predicate TurnOk<E>(p: Parser<E>, c: S.Config, show: Event<E> -> string, w: World<E>, t: S.TurnId) {
    && (t in w.runs ==> t < w.sessions.nextTurn && Inv(p, w.runs[t]) && Sent(w.sessions.log, t) <= Shown(w.runs[t].delivered, show))
    && (t >= w.sessions.nextTurn ==> Sent(w.sessions.log, t) == [])
    && (t in w.sessions.turns ==>
          && t in w.runs && !w.runs[t].finished
          && w.sessions.turns[t].sent == |w.runs[t].delivered|
          && InWindow(c.cap, w.runs[t], w.sessions.turns[t].acked)
          && Sent(w.sessions.log, t) == Shown(w.runs[t].delivered, show))
  }

  ghost predicate WorldOk<E>(p: Parser<E>, c: S.Config, show: Event<E> -> string, w: World<E>) {
    S.Inv(c, w.sessions) && forall t: S.TurnId :: TurnOk(p, c, show, w, t)
  }

  // ---- what the table does with events ----

  lemma {:induction false} HandedSomeFacts(c: S.Config, s: S.Sessions, t: S.TurnId, k: nat)
    requires S.Inv(c, s) && t in s.turns
    ensures var b := HandedSome(c, s, t, k);
            && S.Inv(c, b) && t in b.turns && b.turns[t].sent == s.turns[t].sent + k && b.turns[t].acked == s.turns[t].acked
  {
    hide S.Inv;
    if k > 0 {
      HandedSomeFacts(c, s, t, k - 1);
      S.RunEventKeeps(c, HandedSome(c, s, t, k - 1), t, "");
    }
  }

  /** The table decides as a window of `cap` events does. */
  lemma AsksDecides(c: S.Config, s: S.Sessions, t: S.TurnId)
    requires S.Inv(c, s) && t in s.turns
    ensures Deciding(Asks(c, s, t, s.turns[t].sent), c.cap, s.turns[t].acked, s.turns[t].sent)
  {
    var from, acked := s.turns[t].sent, s.turns[t].acked;
    forall n: nat | n > from && (n == 1 || n - 1 - acked < c.cap)
      ensures Asks(c, s, t, from)(n) <==> n - acked >= c.cap
    {
      HandedSomeFacts(c, s, t, n - 1 - from);
      NextEventPauses(c, HandedSome(c, s, t, n - 1 - from), t);
      hide S.Inv, HandedSome;
    }
  }

  /** The next event of a turn makes the table pause its run exactly if it fills the window. */
  lemma NextEventPauses(c: S.Config, s: S.Sessions, t: S.TurnId)
    requires S.Inv(c, s) && t in s.turns
    requires s.turns[t].sent == 0 || s.turns[t].sent - s.turns[t].acked < c.cap
    ensures S.RunEvent(c, s, t, "").calls == s.calls + [S.PauseRun(t)] <==>
            s.turns[t].sent + 1 - s.turns[t].acked >= c.cap
  {
    assert S.TurnOk(c, s, t);
    hide S.Inv, S.Trace, S.Running;
    assert |S.RunEvent(c, s, t, "").calls| == |s.calls| ==> S.RunEvent(c, s, t, "").calls != s.calls + [S.PauseRun(t)];
  }

  lemma EventFacts(c: S.Config, s: S.Sessions, t: S.TurnId, event: string, u: S.TurnId)
    ensures var b := S.RunEvent(c, s, t, event);
            && b.nextTurn == s.nextTurn && (t !in s.turns ==> b == s)
            && (u in b.turns <==> u in s.turns)
            && (u in s.turns && u != t ==> b.turns[u] == s.turns[u])
            && (t in s.turns ==> t in b.turns && b.turns[t].sent == s.turns[t].sent + 1 && b.turns[t].acked == s.turns[t].acked)
            && Sent(b.log, u) == Sent(s.log, u) + if u == t && t in s.turns then [event] else []
  {
    hide Sent;
    if t in s.turns { SentSnoc(s.log, S.Event(t, s.turns[t].sent + 1, event), u); }
  }

  lemma {:induction false} HandedFacts<E>(
      c: S.Config, s: S.Sessions, t: S.TurnId, es: seq<Event<E>>, show: Event<E> -> string, u: S.TurnId)
    requires S.Inv(c, s)
    ensures var b := Handed(c, s, t, es, show);
            && S.Inv(c, b) && b.nextTurn == s.nextTurn && (t !in s.turns ==> b == s)
            && (u in b.turns <==> u in s.turns)
            && (u in s.turns && u != t ==> b.turns[u] == s.turns[u])
            && (t in s.turns ==> t in b.turns && b.turns[t].sent == s.turns[t].sent + |es| && b.turns[t].acked == s.turns[t].acked)
            && Sent(b.log, u) == Sent(s.log, u) + if u == t && t in s.turns then Shown(es, show) else []
  {
    hide S.Inv, S.RunEvent, Sent;
    if es != [] {
      var init, last := es[..|es| - 1], es[|es| - 1];
      var m := Handed(c, s, t, init, show);
      HandedFacts(c, s, t, init, show, u);
      S.RunEventKeeps(c, m, t, show(last));
      EventFacts(c, m, t, show(last), u);
    }
  }

  lemma {:induction false} ShownConcat<E>(a: seq<Event<E>>, b: seq<Event<E>>, show: Event<E> -> string)
    ensures Shown(a + b, show) == Shown(a, show) + Shown(b, show)
  {
    if b == [] {
      assert a + b == a;
    } else {
      ShownConcat(a, b[..|b| - 1], show);
      assert (a + b)[..|a + b| - 1] == a + b[..|b| - 1];
    }
  }

  lemma NewEventsFollow<E>(r: Run<E>, r2: Run<E>, show: Event<E> -> string)
    requires Grown(r, r2)
    ensures r2.delivered == r.delivered + NewEvents(r, r2)
    ensures Shown(r2.delivered, show) == Shown(r.delivered, show) + Shown(NewEvents(r, r2), show)
  {
    assert r2.delivered == r.delivered + NewEvents(r, r2);
    ShownConcat(r.delivered, NewEvents(r, r2), show);
  }

  lemma DoneFacts(c: S.Config, s: S.Sessions, t: S.TurnId, o: S.RunOutcome, done: Closing, u: S.TurnId)
    requires S.Inv(c, s)
    ensures var b := S.RunDone(s, t, o, done.message, done.newSession);
            && S.Inv(c, b) && b.nextTurn == s.nextTurn && Sent(b.log, u) == Sent(s.log, u)
            && (u in b.turns <==> u in s.turns && u != t) && (u in b.turns ==> b.turns[u] == s.turns[u])
  {
    if t in s.turns {
      var newSession := if s.turns[t].key.engine.Claude? then done.newSession else None;
      S.FinalizeKeeps(c, s, t, S.StatusOf(o), done.message, newSession);
      SentSnoc(s.log, S.Result(t, S.StatusOf(o), done.message, newSession), u);
    }
    hide S.Inv, Sent, S.Remove;
  }

  // ---- one step ----

  /** What the table and the client have of turn `u` after the run of `t` moved. */
  lemma RunsFacts<E>(p: Parser<E>, c: S.Config, show: Event<E> -> string, w: World<E>, t: S.TurnId, input: Input, done: Closing, u: S.TurnId)
    requires S.Inv(c, w.sessions) && t in w.runs && w.runs[t].report.None?
    ensures var s, b := w.sessions, Runs(p, c, show, w, t, input, done);
            var r, r2 := w.runs[t], b.runs[t];
            && b.runs.Keys == w.runs.Keys && (u in w.runs && u != t ==> b.runs[u] == w.runs[u])
            && S.Inv(c, b.sessions) && b.sessions.nextTurn == s.nextTurn
            && (u != t || t !in s.turns ==>
                  && Sent(b.sessions.log, u) == Sent(s.log, u)
                  && (u in b.sessions.turns <==> u in s.turns) && (u in s.turns ==> b.sessions.turns[u] == s.turns[u]))
            && (t in s.turns ==>
                  && Sent(b.sessions.log, t) == Sent(s.log, t) + Shown(NewEvents(r, r2), show)
                  && (t in b.sessions.turns <==> r2.report.None?)
                  && (t in b.sessions.turns ==>
                        && b.sessions.turns[t].acked == s.turns[t].acked
                        && b.sessions.turns[t].sent == s.turns[t].sent + |NewEvents(r, r2)|))
  {
    hide React, Handed, Asks, Sent, S.Inv, Shown, NewEvents, S.RunDone;
    var r := w.runs[t];
    var r2 := React(p, r, input, Asks(c, w.sessions, t, |r.delivered|));
    HandedFacts(c, w.sessions, t, NewEvents(r, r2), show, u);
    HandedFacts(c, w.sessions, t, NewEvents(r, r2), show, t);
    if r2.report.Some? {
      var s1 := Handed(c, w.sessions, t, NewEvents(r, r2), show);
      var b := S.RunDone(s1, t, OutcomeFor(r2.report.value), done.message, done.newSession);
      assert Runs(p, c, show, w, t, input, done) == World(b, w.runs[t := r2]);
      DoneFacts(c, s1, t, OutcomeFor(r2.report.value), done, u);
      DoneFacts(c, s1, t, OutcomeFor(r2.report.value), done, t);
      hide Runs;
    } else {
      assert Runs(p, c, show, w, t, input, done) == World(Handed(c, w.sessions, t, NewEvents(r, r2), show), w.runs[t := r2]);
      hide Runs;
    }
  }

  /** A run that is over tells the table nothing about any turn: its own has ended. */
  lemma OverRunsFacts<E>(p: Parser<E>, c: S.Config, show: Event<E> -> string, w: World<E>, t: S.TurnId, input: Input, done: Closing)
    requires t in w.runs && t !in w.sessions.turns
    requires S.Inv(c, w.sessions)
    ensures Runs(p, c, show, w, t, input, done).sessions == w.sessions
  {
    var r := w.runs[t];
    var r2 := React(p, r, input, Asks(c, w.sessions, t, |r.delivered|));
    hide React, Handed, Asks, S.Inv, NewEvents;
    HandedFacts(c, w.sessions, t, NewEvents(r, r2), show, t);
  }

  lemma RunsMoveOne<E>(p: Parser<E>, c: S.Config, show: Event<E> -> string, w: World<E>, t: S.TurnId, input: Input, done: Closing)
    requires t in w.runs
    ensures Runs(p, c, show, w, t, input, done).runs
            == w.runs[t := React(p, w.runs[t], input, Asks(c, w.sessions, t, |w.runs[t].delivered|))]
  {
    hide React, Handed, Asks, NewEvents, S.RunDone;
  }

  /** The run of a turn after an input that kept it in the window, if the turn is live. */
  lemma RunsKeep<E>(p: Parser<E>, c: S.Config, show: Event<E> -> string, w: World<E>, t: S.TurnId, input: Input, done: Closing)
    requires S.Inv(c, w.sessions) && t in w.runs && t < w.sessions.nextTurn
    requires Sent(w.sessions.log, t) <= Shown(w.runs[t].delivered, show)
    requires var r2 := React(p, w.runs[t], input, Asks(c, w.sessions, t, |w.runs[t].delivered|));
             && Inv(p, r2)
             && (t in w.sessions.turns ==>
                   && w.sessions.turns[t].sent == |w.runs[t].delivered| && w.runs[t].report.None?
                   && Sent(w.sessions.log, t) == Shown(w.runs[t].delivered, show)
                   && InWindow(c.cap, r2, w.sessions.turns[t].acked))
    requires forall u: S.TurnId :: u != t ==> TurnOk(p, c, show, w, u)
    ensures WorldOk(p, c, show, Runs(p, c, show, w, t, input, done))
  {
    hide React, Runs, Asks, Sent, S.Inv, Inv, InWindow, Shown, NewEvents, Grown;
    var r := w.runs[t];
    var wants := Asks(c, w.sessions, t, |r.delivered|);
    var r2 := React(p, r, input, wants);
    var b := Runs(p, c, show, w, t, input, done);
    RunsMoveOne(p, c, show, w, t, input, done);
    ReactGrows(p, r, input, wants);
    NewEventsFollow(r, r2, show);
    ReportedIsFinished(p, r2);
    if t !in w.sessions.turns { OverRunsFacts(p, c, show, w, t, input, done); }
    forall u: S.TurnId ensures TurnOk(p, c, show, b, u) {
      if u != t { assert TurnOk(p, c, show, w, u); }
      if t in w.sessions.turns { RunsFacts(p, c, show, w, t, input, done, u); }
    }
    if t in w.sessions.turns { RunsFacts(p, c, show, w, t, input, done, t); }
  }

  lemma ReportedIsFinished<E>(p: Parser<E>, r: Run<E>)
    requires Inv(p, r)
    ensures r.finished <==> r.report.Some?
  {
  }

  /** A process input to the run of a turn, live or over. */
  lemma ProcessKeeps<E>(p: Parser<E>, c: S.Config, show: Event<E> -> string, w: World<E>, t: S.TurnId, input: Input, done: Closing)
    requires WorldOk(p, c, show, w) && p.blank("") && t in w.runs && FromOutside(input) && Enabled(w.runs[t], input)
    ensures WorldOk(p, c, show, Runs(p, c, show, w, t, input, done))
  {
    var r := w.runs[t];
    var wants := Asks(c, w.sessions, t, |r.delivered|);
    assert TurnOk(p, c, show, w, t);
    InvReact(p, r, input, wants);
    ReportedIsFinished(p, r);
    if t in w.sessions.turns {
      AsksDecides(c, w.sessions, t);
      InputInWindow(p, c.cap, r, w.sessions.turns[t].acked, input, wants, |r.delivered|);
    }
    hide React, Asks, Deciding, S.Inv, Inv, InWindow, Sent, Shown, Runs;
    RunsKeep(p, c, show, w, t, input, done);
  }

  lemma AckTables(c: S.Config, s: S.Sessions, t: S.TurnId, k: nat, u: S.TurnId)
    ensures var b := S.Ack(c, s, t, k);
            && b.nextTurn == s.nextTurn && b.log == s.log && (t !in s.turns ==> b == s)
            && (u in b.turns <==> u in s.turns) && (u in s.turns && u != t ==> b.turns[u] == s.turns[u])
            && (t in s.turns ==>
                  && b.turns[t].sent == s.turns[t].sent && s.turns[t].acked <= b.turns[t].acked
                  && (s.turns[t].acked <= s.turns[t].sent ==> b.turns[t].acked <= b.turns[t].sent))
  {
  }

  lemma AckAsks(c: S.Config, s: S.Sessions, t: S.TurnId, k: nat)
    requires t in s.turns
    ensures var b := S.Ack(c, s, t, k);
            if b.calls == s.calls + [S.ResumeRun(t)]
            then s.turns[t].paused && b.turns[t].sent - b.turns[t].acked < c.cap
            else b.turns[t].paused == s.turns[t].paused
  {
    NoCallAsked(s.calls, S.ResumeRun(t));
  }

  lemma AckFacts(c: S.Config, s: S.Sessions, t: S.TurnId, k: nat, u: S.TurnId)
    requires S.Inv(c, s)
    ensures var b := S.Ack(c, s, t, k);
            && S.Inv(c, b) && b.nextTurn == s.nextTurn && b.log == s.log
            && (u in b.turns <==> u in s.turns) && (u in s.turns && u != t ==> b.turns[u] == s.turns[u])
            && (t in s.turns ==>
                  && b.turns[t].sent == s.turns[t].sent && s.turns[t].acked <= b.turns[t].acked <= b.turns[t].sent
                  && var asked := b.calls == s.calls + [S.ResumeRun(t)];
                     && (asked ==> s.turns[t].paused && b.turns[t].sent > 0 && b.turns[t].sent - b.turns[t].acked < c.cap)
                     && (!asked ==> b.turns[t].paused == s.turns[t].paused))
            && (t !in s.turns ==> b == s)
  {
    S.AckKeeps(c, s, t, k);
    AckTables(c, s, t, k, u);
    if t in s.turns {
      AckAsks(c, s, t, k);
      assert S.TurnOk(c, s, t);
    }
    hide S.Inv, S.Ack, S.Trace, S.Running;
  }

  lemma NoCallAsked(calls: seq<S.RunCall>, call: S.RunCall)
    ensures calls != calls + [call]
  {
    assert |calls + [call]| == |calls| + 1;
  }

  /** An acknowledgement, and the resumption it may ask for. */
  lemma AckWorldKeeps<E>(p: Parser<E>, c: S.Config, show: Event<E> -> string, w: World<E>, t: S.TurnId, k: nat, done: Closing)
    requires WorldOk(p, c, show, w) && p.blank("")
    ensures WorldOk(p, c, show, Next(p, c, show, w, Acknowledge(t, k, done)))
  {
    hide WorldOk, Runs, S.Ack;
    if S.Ack(c, w.sessions, t, k).calls == w.sessions.calls + [S.ResumeRun(t)] && t in w.runs {
      ResumedWorld(p, c, show, w, t, k, done);
    } else {
      QuietAck(p, c, show, w, t, k);
    }
  }

  lemma QuietAck<E>(p: Parser<E>, c: S.Config, show: Event<E> -> string, w: World<E>, t: S.TurnId, k: nat)
    requires WorldOk(p, c, show, w)
    requires S.Ack(c, w.sessions, t, k).calls != w.sessions.calls + [S.ResumeRun(t)] || t !in w.runs
    ensures WorldOk(p, c, show, World(S.Ack(c, w.sessions, t, k), w.runs))
  {
    hide S.Inv, S.Ack, Inv, InWindow, Sent, Shown;
    var s, b := w.sessions, S.Ack(c, w.sessions, t, k);
    assert TurnOk(p, c, show, w, t);
    AckFacts(c, s, t, k, t);
    if t in s.turns { WindowAfterAck(c, w, b, t); }
    forall u: S.TurnId ensures TurnOk(p, c, show, World(b, w.runs), u) {
      assert TurnOk(p, c, show, w, u);
      AckFacts(c, s, t, k, u);
    }
  }

  lemma ResumedWorld<E>(p: Parser<E>, c: S.Config, show: Event<E> -> string, w: World<E>, t: S.TurnId, k: nat, done: Closing)
    requires WorldOk(p, c, show, w) && p.blank("") && t in w.runs
    requires S.Ack(c, w.sessions, t, k).calls == w.sessions.calls + [S.ResumeRun(t)]
    ensures WorldOk(p, c, show, Runs(p, c, show, World(S.Ack(c, w.sessions, t, k), w.runs), t, Resume, done))
  {
    hide S.Inv, S.Ack, Inv, Sent, Shown, React, ResumeCall, Asks, Deciding, InWindow, Runs;
    var s, b, r := w.sessions, S.Ack(c, w.sessions, t, k), w.runs[t];
    var wants := Asks(c, b, t, |r.delivered|);
    NoCallAsked(s.calls, S.ResumeRun(t));
    AckFacts(c, s, t, k, t);
    assert t in s.turns && TurnOk(p, c, show, w, t);
    OthersAfterAck(p, c, show, w, t, k);
    hide WorldOk;
    ReportedIsFinished(p, r);
    HeldRun(c, w, t);
    AsksDecides(c, b, t);
    ResumedRun(p, c.cap, r, b.turns[t].acked, wants);
    RunsKeep(p, c, show, World(b, w.runs), t, Resume, done);
  }

  lemma ResumedRun<E>(p: Parser<E>, cap: nat, r: Run<E>, acked: nat, wants: Callback)
    requires Inv(p, r) && p.blank("") && Deciding(wants, cap, acked, |r.delivered|)
    requires acked <= |r.delivered| && r.paused && |r.delivered| - acked < cap && |r.delivered| > 0
    ensures Inv(p, React(p, r, Resume, wants)) && InWindow(cap, React(p, r, Resume, wants), acked)
  {
    hide Inv, Deciding, InWindow, ResumeCall;
    InvReact(p, r, Resume, wants);
    ResumeInWindow(p, cap, r, acked, wants, |r.delivered|);
  }

  lemma HeldRun<E>(c: S.Config, w: World<E>, t: S.TurnId)
    requires S.Inv(c, w.sessions) && t in w.sessions.turns && t in w.runs && w.sessions.turns[t].paused && !w.runs[t].finished
    requires w.sessions.turns[t].sent == |w.runs[t].delivered| && InWindow(c.cap, w.runs[t], w.sessions.turns[t].acked)
    ensures w.runs[t].paused
  {
    assert S.TurnOk(c, w.sessions, t);
    hide S.Inv, S.Trace, S.Running;
  }

  lemma OthersAfterAck<E>(p: Parser<E>, c: S.Config, show: Event<E> -> string, w: World<E>, t: S.TurnId, k: nat)
    requires WorldOk(p, c, show, w)
    ensures forall u: S.TurnId :: u != t ==> TurnOk(p, c, show, World(S.Ack(c, w.sessions, t, k), w.runs), u)
  {
    var b := S.Ack(c, w.sessions, t, k);
    forall u: S.TurnId | u != t ensures TurnOk(p, c, show, World(b, w.runs), u) {
      assert TurnOk(p, c, show, w, u);
      AckTables(c, w.sessions, t, k, u);
      hide S.Inv, S.Ack, Inv, InWindow, Sent, Shown;
    }
  }

  /** An ack that asks for nothing leaves the run where it was: held and full, or flowing. */
  lemma WindowAfterAck<E>(c: S.Config, w: World<E>, b: S.Sessions, t: S.TurnId)
    requires S.Inv(c, w.sessions) && S.Inv(c, b) && t in w.sessions.turns && t in b.turns && t in w.runs
    requires b.turns[t].sent == w.sessions.turns[t].sent == |w.runs[t].delivered|
    requires w.sessions.turns[t].acked <= b.turns[t].acked && b.turns[t].paused == w.sessions.turns[t].paused
    requires InWindow(c.cap, w.runs[t], w.sessions.turns[t].acked)
    ensures InWindow(c.cap, w.runs[t], b.turns[t].acked)
  {
    assert S.TurnOk(c, w.sessions, t) && S.TurnOk(c, b, t);
    hide S.Inv, S.Trace, S.Running;
  }

  /** A cancellation that the table asks for changes nothing a turn depends on. */
  lemma StoppedFacts<E>(p: Parser<E>, r: Run<E>)
    requires Inv(p, r) && p.blank("")
    ensures Inv(p, Stopped(p, r)) && Stopped(p, r) == r.(cancelled := Stopped(p, r).cancelled)
  {
    hide Inv, Drain, ResumeCall, MaybeFinishClosed, LineStream.Emit, LineStream.Finish;
    InvReact(p, r, Cancel, n => false);
  }

  /** A step of the table that only stops runs: live turns stay as they were or end. */
  lemma OnlyStops<E>(p: Parser<E>, c: S.Config, show: Event<E> -> string, w: World<E>, b: World<E>)
    requires WorldOk(p, c, show, w) && p.blank("") && S.Inv(c, b.sessions)
    requires b.sessions.nextTurn == w.sessions.nextTurn && b.runs.Keys == w.runs.Keys
    requires forall u :: u in w.runs ==> b.runs[u] == w.runs[u] || b.runs[u] == Stopped(p, w.runs[u])
    requires forall u: S.TurnId :: Sent(b.sessions.log, u) == Sent(w.sessions.log, u)
    requires forall u: S.TurnId :: u in b.sessions.turns ==> u in w.sessions.turns && b.sessions.turns[u] == w.sessions.turns[u]
    ensures WorldOk(p, c, show, b)
  {
    forall u: S.TurnId ensures TurnOk(p, c, show, b, u) {
      assert TurnOk(p, c, show, w, u);
      if u in w.runs { StoppedFacts(p, w.runs[u]); }
      hide S.Inv, Inv, Sent, Shown, Stopped;
    }
  }

  lemma CancelKeeps<E>(p: Parser<E>, c: S.Config, show: Event<E> -> string, w: World<E>, t: S.TurnId)
    requires WorldOk(p, c, show, w) && p.blank("")
    ensures WorldOk(p, c, show, Next(p, c, show, w, CancelOne(t)))
  {
    S.CallKeeps(c, w.sessions, S.CancelRun(t));
    hide WorldOk, S.Inv, Stopped;
    OnlyStops(p, c, show, w, Next(p, c, show, w, CancelOne(t))) by { InvOf(p, c, show, w); }
  }

  lemma InvOf<E>(p: Parser<E>, c: S.Config, show: Event<E> -> string, w: World<E>)
    requires WorldOk(p, c, show, w)
    ensures S.Inv(c, w.sessions)
  {
  }

  lemma TimeOutFacts(c: S.Config, s: S.Sessions, t: S.TurnId, u: S.TurnId)
    requires S.Inv(c, s)
    ensures var b := S.Timeout(s, t);
            && S.Inv(c, b) && b.nextTurn == s.nextTurn && Sent(b.log, u) == Sent(s.log, u)
            && (u in b.turns ==> u in s.turns && b.turns[u] == s.turns[u])
  {
    S.CallKeeps(c, s, S.CancelRun(t));
    S.FinalizeKeeps(c, S.Call(s, S.CancelRun(t)), t, S.StatusError, "resume turn timed out", None);
    SentSnoc(s.log, S.Result(t, S.StatusError, "resume turn timed out", None), u);
    hide S.Inv, Sent, S.Remove;
  }

  lemma TimeOutKeeps<E>(p: Parser<E>, c: S.Config, show: Event<E> -> string, w: World<E>, t: S.TurnId)
    requires WorldOk(p, c, show, w) && p.blank("")
    ensures WorldOk(p, c, show, Next(p, c, show, w, TimeOut(t)))
  {
    var b := Next(p, c, show, w, TimeOut(t));
    InvOf(p, c, show, w);
    hide WorldOk, S.Inv, Stopped, S.Timeout;
    forall u: S.TurnId
      ensures Sent(b.sessions.log, u) == Sent(w.sessions.log, u)
      ensures u in b.sessions.turns ==> u in w.sessions.turns && b.sessions.turns[u] == w.sessions.turns[u]
    {
      TimeOutFacts(c, w.sessions, t, u);
    }
    TimeOutFacts(c, w.sessions, t, t);
    OnlyStops(p, c, show, w, b);
  }

  lemma {:induction false} CloseFacts(c: S.Config, s: S.Sessions, snapshot: seq<S.TurnId>, u: S.TurnId)
    requires S.Inv(c, s)
    ensures var b := S.CancelAll(s, snapshot);
            && S.Inv(c, b) && b.nextTurn == s.nextTurn && Sent(b.log, u) == Sent(s.log, u)
            && (u in b.turns ==> u in s.turns && b.turns[u] == s.turns[u])
  {
    if snapshot != [] {
      var t := snapshot[|snapshot| - 1];
      var m := S.CancelAll(s, snapshot[..|snapshot| - 1]);
      CloseFacts(c, s, snapshot[..|snapshot| - 1], u);
      S.CallKeeps(c, m, S.CancelRun(t));
      S.FinalizeKeeps(c, S.Call(m, S.CancelRun(t)), t, S.StatusCancelled, "session connection closed", None);
      SentSnoc(m.log, S.Result(t, S.StatusCancelled, "session connection closed", None), u);
      hide S.Inv, Sent, S.Remove;
    }
  }

  lemma CloseKeeps<E>(p: Parser<E>, c: S.Config, show: Event<E> -> string, w: World<E>)
    requires WorldOk(p, c, show, w) && p.blank("")
    ensures WorldOk(p, c, show, Next(p, c, show, w, CloseAll))
  {
    var b := Next(p, c, show, w, CloseAll);
    InvOf(p, c, show, w);
    hide WorldOk, S.Inv, Stopped, S.CancelAll;
    forall u: S.TurnId
      ensures Sent(b.sessions.log, u) == Sent(w.sessions.log, u)
      ensures u in b.sessions.turns ==> u in w.sessions.turns && b.sessions.turns[u] == w.sessions.turns[u]
    {
      CloseFacts(c, w.sessions, w.sessions.order, u);
    }
    CloseFacts(c, w.sessions, w.sessions.order, 0);
    OnlyStops(p, c, show, w, b);
  }

  lemma StartFacts(c: S.Config, s: S.Sessions, request: nat, target: Option<S.Target>, failure: Option<string>, u: S.TurnId)
    requires S.Inv(c, s)
    ensures var b, n := S.Start(c, s, request, target, failure), s.nextTurn;
            && S.Inv(c, b) && n !in s.turns && n <= b.nextTurn <= n + 1 && Sent(b.log, u) == Sent(s.log, u)
            && (u != n ==> (u in b.turns <==> u in s.turns) && (u in s.turns ==> b.turns[u] == s.turns[u]))
            && (n in b.turns ==> b.nextTurn == n + 1 && b.turns[n].sent == 0 && b.turns[n].acked == 0)
  {
    S.InvReact(c, s, S.StartInput(request, target, failure));
    assert S.TurnOk(c, s, s.nextTurn);
    hide S.Inv, S.Trace, S.Running, S.Over, Sent;
    SentSnoc(s.log, S.Reject(request, S.HandleInvalid), u);
    SentSnoc(s.log, S.Reject(request, S.EngineUnavailable), u);
    SentSnoc(s.log, S.Reject(request, S.SessionBusy), u);
    if target.Some? {
      var m := S.Accept(request, s.nextTurn, target.value.engine.Claude?, target.value.engine.Codex?);
      SentSnoc(s.log, m, u);
      if failure.Some? { SentSnoc(s.log + [m], S.Result(s.nextTurn, S.StatusError, failure.value, None), u); }
    }
  }

  lemma BeginKeeps<E>(p: Parser<E>, c: S.Config, show: Event<E> -> string, w: World<E>,
                      request: nat, target: Option<S.Target>, failure: Option<string>)
    requires WorldOk(p, c, show, w)
    ensures WorldOk(p, c, show, Next(p, c, show, w, Begin(request, target, failure)))
  {
    hide S.Inv, S.Start, Inv, InWindow, Sent, Shown;
    var b := Next(p, c, show, w, Begin(request, target, failure));
    FreshFacts(p, c.cap, show);
    StartFacts(c, w.sessions, request, target, failure, 0);
    forall u: S.TurnId ensures TurnOk(p, c, show, b, u) {
      assert TurnOk(p, c, show, w, u);
      StartFacts(c, w.sessions, request, target, failure, u);
    }
  }

  lemma FreshFacts<E>(p: Parser<E>, cap: nat, show: Event<E> -> string)
    ensures var r: Run<E> := Fresh(); Inv(p, r) && !r.finished && r.delivered == [] && InWindow(cap, r, 0) && Shown(r.delivered, show) == []
  {
    InvFresh(p);
  }

  lemma WorldNext<E>(p: Parser<E>, c: S.Config, show: Event<E> -> string, w: World<E>, step: Step)
    requires WorldOk(p, c, show, w) && p.blank("") && Allowed(w, step)
    ensures WorldOk(p, c, show, Next(p, c, show, w, step))
  {
    hide WorldOk, Runs;
    match step
    case Begin(request, target, failure) => BeginKeeps(p, c, show, w, request, target, failure);
    case Process(t, input, done) => if t in w.runs { ProcessKeeps(p, c, show, w, t, input, done); }
    case Acknowledge(t, k, done) => AckWorldKeeps(p, c, show, w, t, k, done);
    case CancelOne(t) => CancelKeeps(p, c, show, w, t);
    case TimeOut(t) => TimeOutKeeps(p, c, show, w, t);
    case CloseAll => CloseKeeps(p, c, show, w);
  }

  // ---- over every run of the two machines ----

  lemma WorldOfNone<E>(p: Parser<E>, c: S.Config, show: Event<E> -> string)
    ensures WorldOk(p, c, show, World(S.NoSessions, map[]))
  {
    S.InvNone(c);
  }

  lemma {:induction false} WorldAlways<E>(p: Parser<E>, c: S.Config, show: Event<E> -> string, steps: seq<Step>)
    requires Possible(p, c, show, steps) && p.blank("")
    ensures WorldOk(p, c, show, After(p, c, show, steps))
  {
    hide WorldOk, Next, Allowed;
    if steps == [] {
      WorldOfNone(p, c, show);
    } else {
      WorldAlways(p, c, show, steps[..|steps| - 1]);
      WorldNext(p, c, show, After(p, c, show, steps[..|steps| - 1]), steps[|steps| - 1]);
    }
  }

  /** Over every run of requests, process output, acks and ends: a live turn has an
      unfinished run; the two count the same events and agree on the pause; the
      unacknowledged events never exceed the cap, and the run is paused exactly when they
      reach it. */
  lemma UnackedWithinCap<E>(p: Parser<E>, c: S.Config, show: Event<E> -> string, steps: seq<Step>, t: S.TurnId)
    requires Possible(p, c, show, steps) && p.blank("") && 0 < c.cap
    requires t in After(p, c, show, steps).sessions.turns
    ensures var w := After(p, c, show, steps);
            && t in w.runs && !w.runs[t].finished
            && var turn, run := w.sessions.turns[t], w.runs[t];
               && turn.sent == |run.delivered| && (turn.paused <==> run.paused)
               && 0 <= turn.sent - turn.acked <= c.cap && (run.paused <==> turn.sent - turn.acked == c.cap)
  {
    WorldAlways(p, c, show, steps);
    var w := After(p, c, show, steps);
    assert TurnOk(p, c, show, w, t) && S.TurnOk(c, w.sessions, t);
    hide After, Possible, S.Inv, Inv, S.Trace, S.Running, Sent;
  }

  /** What the process of a turn has written to its standard output. */
  ghost function Written<E>(p: Parser<E>, c: S.Config, show: Event<E> -> string, steps: seq<Step>, t: S.TurnId): string {
    if steps == [] then ""
    else
      var init, last := steps[..|steps| - 1], steps[|steps| - 1];
      if last.Process? && last.turn == t && last.input.Data? && t in After(p, c, show, init).runs
      then Written(p, c, show, init, t) + last.input.chunk
      else Written(p, c, show, init, t)
  }

  lemma RunsText<E>(p: Parser<E>, c: S.Config, show: Event<E> -> string, w: World<E>, t: S.TurnId, input: Input, done: Closing, u: S.TurnId)
    requires t in w.runs && u in w.runs
    ensures Runs(p, c, show, w, t, input, done).runs.Keys == w.runs.Keys
    ensures Runs(p, c, show, w, t, input, done).runs[u].received
            == w.runs[u].received + if u == t && input.Data? then input.chunk else ""
  {
    hide React;
    RunsMoveOne(p, c, show, w, t, input, done);
    ReactHistory(p, w.runs[t], input, Asks(c, w.sessions, t, |w.runs[t].delivered|));
    hide Runs, Asks;
  }

  lemma NextText<E>(p: Parser<E>, c: S.Config, show: Event<E> -> string, w: World<E>, step: Step, u: S.TurnId)
    requires WorldOk(p, c, show, w)
    ensures u in w.runs ==>
              && u in Next(p, c, show, w, step).runs
              && Next(p, c, show, w, step).runs[u].received
                 == w.runs[u].received
                    + if step.Process? && step.turn == u && step.input.Data? then step.input.chunk else ""
    ensures u !in w.runs && u in Next(p, c, show, w, step).runs ==> Next(p, c, show, w, step).runs[u].received == ""
  {
    assert TurnOk(p, c, show, w, u);
    hide Runs, Stopped, S.Start, S.Ack, S.CancelAll, S.Inv, S.Timeout, S.CancelTurn, Inv, InWindow, Sent;
    match step
    case Process(t, input, done) => if t in w.runs { RunsTexts(p, c, show, w, t, input, done, u); }
    case Acknowledge(t, k, done) =>
      if t in w.runs { RunsTexts(p, c, show, World(S.Ack(c, w.sessions, t, k), w.runs), t, Resume, done, u); }
    case CancelOne(t) => if t in w.runs { StoppedText(p, w.runs[t]); }
    case TimeOut(t) => if t in w.runs { StoppedText(p, w.runs[t]); }
    case CloseAll => if u in w.runs { StoppedText(p, w.runs[u]); }
    case _ =>
  }

  lemma StoppedText<E>(p: Parser<E>, r: Run<E>)
    ensures Stopped(p, r).received == r.received
  {
  }

  lemma RunsTexts<E>(p: Parser<E>, c: S.Config, show: Event<E> -> string, w: World<E>, t: S.TurnId, input: Input, done: Closing, u: S.TurnId)
    requires t in w.runs
    ensures var b := Runs(p, c, show, w, t, input, done).runs;
            && (u in b <==> u in w.runs)
            && (u in b ==> b[u].received == w.runs[u].received + if u == t && input.Data? then input.chunk else "")
  {
    hide Runs;
    RunsText(p, c, show, w, t, input, done, t);
    if u in w.runs { RunsText(p, c, show, w, t, input, done, u); }
  }

  lemma {:induction false} WrittenIs<E>(p: Parser<E>, c: S.Config, show: Event<E> -> string, steps: seq<Step>, t: S.TurnId)
    requires Possible(p, c, show, steps) && p.blank("")
    ensures t in After(p, c, show, steps).runs ==> After(p, c, show, steps).runs[t].received == Written(p, c, show, steps, t)
    ensures t !in After(p, c, show, steps).runs ==> Written(p, c, show, steps, t) == ""
  {
    hide Next, WorldOk, Allowed;
    if steps != [] {
      var init, last := steps[..|steps| - 1], steps[|steps| - 1];
      WrittenIs(p, c, show, init, t);
      WorldAlways(p, c, show, init);
      NextText(p, c, show, After(p, c, show, init), last, t);
    }
  }

  /** What a client has been sent of a turn is always a prefix of what its run delivered,
      and while the turn is live it is all of that; delivered, waiting and buffered
      together are the batch parse of what the process wrote. */
  lemma ClientSeesOutput<E>(p: Parser<E>, c: S.Config, show: Event<E> -> string, steps: seq<Step>, t: S.TurnId,
                            lines: seq<string>, rest: string, owed: seq<string>, tail: string)
    requires Possible(p, c, show, steps) && p.blank("") && t in After(p, c, show, steps).runs
    requires IsSplit(Written(p, c, show, steps, t), lines, rest) && IsSplit(After(p, c, show, steps).runs[t].buf, owed, tail)
    ensures var w := After(p, c, show, steps);
            var run := w.runs[t];
            && Sent(w.sessions.log, t) <= Shown(run.delivered, show)
            && (t in w.sessions.turns ==> Sent(w.sessions.log, t) == Shown(run.delivered, show))
            && (!run.flushed ==> Output(run.delivered + run.pending) + Batch(p, owed) == Batch(p, lines) && tail == rest)
            && (run.flushed ==> Output(run.delivered + run.pending) == Batch(p, lines + [rest]))
  {
    hide After, Possible, S.Inv, InWindow, Sent, Shown, Batch, Lines, Rest, Output, Notes, IsSplit, Written;
    WorldAlways(p, c, show, steps);
    WrittenIs(p, c, show, steps, t);
    SplitIff(Written(p, c, show, steps, t), lines, rest);
    SplitIff(After(p, c, show, steps).runs[t].buf, owed, tail);
    var w := After(p, c, show, steps);
    assert TurnOk(p, c, show, w, t);
    BatchConcat(p, w.runs[t].parsed, owed);
  }

  /** When the process of a live turn ends by itself after output that ends in a newline,
      the client has been sent every event of the batch parse, in order, before the one
      result; and the result tells the outcome of the process. */
  lemma EndOfTurnIsComplete<E>(p: Parser<E>, c: S.Config, show: Event<E> -> string, steps: seq<Step>, step: Step, t: S.TurnId,
                               lines: seq<string>, rest: string)
    requires Possible(p, c, show, steps + [step]) && p.blank("")
    requires step.Process? || step.Acknowledge?
    requires t == step.turn && t in After(p, c, show, steps).sessions.turns && t in After(p, c, show, steps + [step]).runs
    requires IsSplit(Written(p, c, show, steps + [step], t), lines, rest) && p.blank(rest)
    requires var r2 := After(p, c, show, steps + [step]).runs[t]; r2.report.Some? && r2.report.value.ByClose?
    ensures var b := After(p, c, show, steps + [step]);
            var r2 := b.runs[t];
            && Sent(b.sessions.log, t) == Shown(r2.delivered, show) && r2.pending == []
            && Output(r2.delivered) == Batch(p, lines)
            && t !in b.sessions.turns && b.sessions.log != []
            && var last := b.sessions.log[|b.sessions.log| - 1];
               last.Result? && last.turn == t
               && (last.status == S.StatusOk <==> r2.report.value.outcome == Success)
               && (last.status == S.StatusCancelled <==> r2.report.value.outcome == Cancelled)
  {
    hide After, Possible, IsSplit, Written, Next, WorldOk, Sent, Shown, Output, Batch;
    var w := After(p, c, show, steps);
    assert (steps + [step])[..|steps|] == steps;
    assert Possible(p, c, show, steps) by { PossibleSnoc(p, c, show, steps, step); }
    WorldAlways(p, c, show, steps);
    WorldAlways(p, c, show, steps + [step]);
    WrittenIs(p, c, show, steps + [step], t);
    SplitIff(Written(p, c, show, steps + [step], t), lines, rest);
    assert After(p, c, show, steps + [step]) == Next(p, c, show, w, step) by { AfterSnoc(p, c, show, steps, step); }
    assert t in w.runs by { TurnOf(p, c, show, w, t); }
    EndStep(p, c, show, w, step, t);
  }

  lemma PossibleSnoc<E>(p: Parser<E>, c: S.Config, show: Event<E> -> string, steps: seq<Step>, step: Step)
    requires Possible(p, c, show, steps + [step])
    ensures Possible(p, c, show, steps)
  {
    assert (steps + [step])[..|steps|] == steps;
  }

  lemma AfterSnoc<E>(p: Parser<E>, c: S.Config, show: Event<E> -> string, steps: seq<Step>, step: Step)
    ensures After(p, c, show, steps + [step]) == Next(p, c, show, After(p, c, show, steps), step)
  {
    assert (steps + [step])[..|steps|] == steps;
  }

  lemma EndStep<E>(p: Parser<E>, c: S.Config, show: Event<E> -> string, w: World<E>, step: Step, t: S.TurnId)
    requires WorldOk(p, c, show, w) && WorldOk(p, c, show, Next(p, c, show, w, step)) && p.blank("")
    requires (step.Process? || step.Acknowledge?) && t == step.turn && t in w.sessions.turns && t in w.runs
    requires t in Next(p, c, show, w, step).runs
    requires var r2 := Next(p, c, show, w, step).runs[t];
             r2.report.Some? && r2.report.value.ByClose? && p.blank(Rest(r2.received))
    ensures var b := Next(p, c, show, w, step);
            var r2 := b.runs[t];
            && Sent(b.sessions.log, t) == Shown(r2.delivered, show) && r2.pending == []
            && Output(r2.delivered) == Batch(p, Lines(r2.received))
            && t !in b.sessions.turns && b.sessions.log != []
            && var last := b.sessions.log[|b.sessions.log| - 1];
               last.Result? && last.turn == t
               && (last.status == S.StatusOk <==> r2.report.value.outcome == Success)
               && (last.status == S.StatusCancelled <==> r2.report.value.outcome == Cancelled)
  {
    hide S.Ack, S.Inv, Inv, InWindow, WorldOk, Runs, Sent, Shown, Output, Batch, Lines, Rest, TurnOk, Next;
    var b := Next(p, c, show, w, step);
    var s := if step.Acknowledge? then S.Ack(c, w.sessions, t, step.ackSeq) else w.sessions;
    TurnOf(p, c, show, w, t);
    ReportedIsFinished(p, w.runs[t]);
    NextIsRuns(p, c, show, w, step);
    TurnOf(p, c, show, b, t);
    CompleteRun(p, b.runs[t]);
    if step.Acknowledge? { AckFacts(c, w.sessions, t, step.ackSeq, t); }
    RunEnds(p, c, show, World(s, w.runs), t, if step.Process? then step.input else Resume, step.done);
  }

  lemma NextIsRuns<E>(p: Parser<E>, c: S.Config, show: Event<E> -> string, w: World<E>, step: Step)
    requires (step.Process? || step.Acknowledge?) && step.turn in w.runs
    requires Next(p, c, show, w, step).runs != w.runs
    ensures var s := if step.Acknowledge? then S.Ack(c, w.sessions, step.turn, step.ackSeq) else w.sessions;
            Next(p, c, show, w, step) ==
            Runs(p, c, show, World(s, w.runs), step.turn, if step.Process? then step.input else Resume, step.done)
  {
    hide S.Ack, Runs;
  }

  lemma TurnOf<E>(p: Parser<E>, c: S.Config, show: Event<E> -> string, w: World<E>, t: S.TurnId)
    requires WorldOk(p, c, show, w)
    ensures S.Inv(c, w.sessions) && (t in w.runs ==> Inv(p, w.runs[t]))
    ensures t in w.sessions.turns ==> t in w.runs && !w.runs[t].finished && Sent(w.sessions.log, t) == Shown(w.runs[t].delivered, show)
  {
    assert TurnOk(p, c, show, w, t);
  }

  lemma CompleteRun<E>(p: Parser<E>, r: Run<E>)
    requires Inv(p, r) && r.report.Some? && r.report.value.ByClose? && p.blank(Rest(r.received))
    ensures r.pending == [] && Output(r.delivered) == Batch(p, Lines(r.received))
  {
    hide Output, Notes, Batch, Lines, Rest;
    assert r.delivered + [] == r.delivered && r.parsed + [] == r.parsed;
  }

  lemma RunEnds<E>(p: Parser<E>, c: S.Config, show: Event<E> -> string, w: World<E>, t: S.TurnId, input: Input, done: Closing)
    requires S.Inv(c, w.sessions) && t in w.runs && t in w.sessions.turns && w.runs[t].report.None?
    requires Sent(w.sessions.log, t) == Shown(w.runs[t].delivered, show)
    requires Runs(p, c, show, w, t, input, done).runs[t].report.Some?
    ensures var b := Runs(p, c, show, w, t, input, done);
            && Sent(b.sessions.log, t) == Shown(b.runs[t].delivered, show)
            && t !in b.sessions.turns && b.sessions.log != []
            && var last := b.sessions.log[|b.sessions.log| - 1];
               last.Result? && last.turn == t
               && (last.status == S.StatusOk <==> Reported(b.runs[t].report.value) == Success)
               && (last.status == S.StatusCancelled <==> Reported(b.runs[t].report.value) == Cancelled)
  {
    hide React, Asks, Handed, Sent, Shown, NewEvents, S.Inv, S.Remove, Grown, S.RunDone;
    var r := w.runs[t];
    var wants := Asks(c, w.sessions, t, |r.delivered|);
    var r2 := React(p, r, input, wants);
    var s1 := Handed(c, w.sessions, t, NewEvents(r, r2), show);
    ReactGrows(p, r, input, wants);
    NewEventsFollow(r, r2, show);
    HandedFacts(c, w.sessions, t, NewEvents(r, r2), show, t);
    DoneFacts(c, s1, t, OutcomeFor(r2.report.value), done, t);
    DoneSays(s1, t, r2.report.value, done);
  }

  /** The result is the last thing said, with the status that the report calls for. */
  lemma DoneSays(s: S.Sessions, t: S.TurnId, r: Report, done: Closing)
    requires t in s.turns
    ensures var b := S.RunDone(s, t, OutcomeFor(r), done.message, done.newSession);
            && b.log != []
            && var last := b.log[|b.log| - 1];
               last.Result? && last.turn == t
               && (last.status == S.StatusOk <==> Reported(r) == Success)
               && (last.status == S.StatusCancelled <==> Reported(r) == Cancelled)
  {
    hide S.Remove, Reported;
  }
}
