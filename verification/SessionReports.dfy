/** What a turn tells its client and asks of its run: the answer to a start, the one
    result, and the pauses and resumptions behind the paused flag. */
module SessionReports {
  import opened Options
  import opened SessionTurns

  // ---- answers ----

  /** A refused start is answered by the first reason that applies, and nothing else
      happens. An accepted one is announced with what its engine does to the source: a
      Claude turn forks the session, a Codex turn writes to it. A runner that throws
      ends the turn at once and leaves the session free. */
  lemma StartIsAnswered(c: Config, s: Sessions, request: nat, target: Option<Target>, failure: Option<string>)
    requires Inv(c, s)
    ensures var b, t := Start(c, s, request, target, failure), s.nextTurn;
            if target.None? then b == s.(log := s.log + [Reject(request, HandleInvalid)])
            else if !c.hasRunner(target.value.engine) then b == s.(log := s.log + [Reject(request, EngineUnavailable)])
            else if target.value in s.active then b == s.(log := s.log + [Reject(request, SessionBusy)])
            else
              var claude := target.value.engine == Claude;
              && t !in s.turns && b.nextTurn == t + 1
              && (failure.None? ==>
                    && b.log == s.log + [Accept(request, t, claude, !claude)]
                    && b.calls == s.calls + [StartRun(t)]
                    && b.turns == s.turns[t := Turn(target.value, 0, 0, false)]
                    && b.active == s.active + {target.value})
              && (failure.Some? ==>
                    && b.log == s.log + [Accept(request, t, claude, !claude), Result(t, StatusError, failure.value, None)]
                    && b.calls == s.calls && b.turns == s.turns && b.active == s.active)
  {
    assert TurnOk(c, s, s.nextTurn);
    hide Trace, Running, Over, KeysOk, OrderOk;
  }

  /** The end of a run is reported once, by its outcome; a new session is named only for
      an engine that forks. For a turn that is over nothing happens. */
  lemma EndIsReported(c: Config, s: Sessions, t: TurnId, o: RunOutcome, message: string, newSession: Option<string>)
    requires Inv(c, s)
    ensures var b := RunDone(s, t, o, message, newSession);
            && (t !in s.turns ==> b == s)
            && (t in s.turns ==>
                  var key := s.turns[t].key;
                  && t !in b.turns && key !in b.active && b.calls == s.calls
                  && |b.log| == |s.log| + 1 && b.log[..|s.log|] == s.log
                  && var r := b.log[|s.log|];
                     && r.Result? && r.turn == t && r.message == message
                     && (r.status == StatusOk <==> o == RunSuccess) && (r.status == StatusCancelled <==> o == RunCancelled)
                     && r.newSession == (if key.engine == Codex then None else newSession))
  {
    hide Inv;
  }

  /** A cancellation reaches the run of a live turn and leaves the turn to report; a
      timeout reaches it too and ends the turn with an error. */
  lemma CancelReachesRun(c: Config, s: Sessions, t: TurnId)
    requires Inv(c, s) && t in s.turns
    ensures CancelTurn(s, t) == s.(calls := s.calls + [CancelRun(t)])
    ensures var b := Timeout(s, t);
            && b.calls == s.calls + [CancelRun(t)] && t !in b.turns && s.turns[t].key !in b.active
            && b.log == s.log + [Result(t, StatusError, "resume turn timed out", None)]
  {
    hide Inv;
  }

  // ---- pausing ----

  /** Whether the last pause or resumption asked of a run was a pause. */
  function Held(calls: seq<RunCall>, t: TurnId): bool {
    if calls == [] then false
    else
      var last := calls[|calls| - 1];
      if last == PauseRun(t) then true
      else if last == ResumeRun(t) then false
      else Held(calls[..|calls| - 1], t)
  }

  /** How often the run of a turn was started. */
  function Starts(calls: seq<RunCall>, t: TurnId): nat {
    if calls == [] then 0
    else Starts(calls[..|calls| - 1], t) + if calls[|calls| - 1] == StartRun(t) then 1 else 0
  }

  lemma HeldSnoc(calls: seq<RunCall>, call: RunCall, t: TurnId)
    ensures Held(calls + [call], t) == if call == PauseRun(t) then true else if call == ResumeRun(t) then false else Held(calls, t)
    ensures Starts(calls + [call], t) == Starts(calls, t) + if call == StartRun(t) then 1 else 0
  {
    assert (calls + [call])[..|calls|] == calls;
  }

  /** The run of a live turn was started once and is held exactly while the turn is
      paused; runs of turns to come were asked nothing. */
  ghost predicate CallsOk(s: Sessions, t: TurnId) {
    && (t in s.turns ==> t < s.nextTurn && Starts(s.calls, t) == 1 && Held(s.calls, t) == s.turns[t].paused)
    && (t >= s.nextTurn ==> Starts(s.calls, t) == 0 && !Held(s.calls, t))
    && Starts(s.calls, t) <= 1
  }

  lemma CallsOfEnd(s: Sessions, t: TurnId, status: TurnStatus, message: string, newSession: Option<string>, u: TurnId)
    requires CallsOk(s, u)
    ensures CallsOk(Finalize(s, t, status, message, newSession), u)
  {
    hide Held, Starts, Remove;
  }

  lemma CallsOfCancel(s: Sessions, t: TurnId, u: TurnId)
    requires CallsOk(s, u)
    ensures CallsOk(Call(s, CancelRun(t)), u)
  {
    HeldSnoc(s.calls, CancelRun(t), u);
    hide Held, Starts;
  }

  lemma {:induction false} CallsOfClose(s: Sessions, snapshot: seq<TurnId>, u: TurnId)
    requires CallsOk(s, u)
    ensures CallsOk(CancelAll(s, snapshot), u)
  {
    if snapshot != [] {
      var init, t := snapshot[..|snapshot| - 1], snapshot[|snapshot| - 1];
      CallsOfClose(s, init, u);
      var b := CancelAll(s, init);
      CallsOfCancel(b, t, u);
      hide CallsOk, Finalize;
      CallsOfEnd(Call(b, CancelRun(t)), t, StatusCancelled, "session connection closed", None, u);
    }
  }

  lemma CallsOfStart(c: Config, s: Sessions, request: nat, target: Option<Target>, failure: Option<string>, u: TurnId)
    requires s.nextTurn !in s.turns && CallsOk(s, u)
    ensures CallsOk(Start(c, s, request, target, failure), u)
  {
    HeldSnoc(s.calls, StartRun(s.nextTurn), u);
    hide Held, Starts;
  }

  lemma CallsOfFlow(c: Config, s: Sessions, t: TurnId, event: string, k: nat, u: TurnId)
    requires CallsOk(s, u)
    ensures CallsOk(RunEvent(c, s, t, event), u) && CallsOk(Ack(c, s, t, k), u)
  {
    HeldSnoc(s.calls, PauseRun(t), u);
    HeldSnoc(s.calls, ResumeRun(t), u);
    hide Held, Starts;
  }

  lemma CallsReact(c: Config, s: Sessions, i: Input, u: TurnId)
    requires Inv(c, s) && CallsOk(s, u)
    ensures CallsOk(React(c, s, i), u)
  {
    assert s.nextTurn !in s.turns by { assert TurnOk(c, s, s.nextTurn); }
    hide Inv, CallsOk, Finalize, Start, RunEvent, Ack, CancelAll;
    match i
    case StartInput(request, target, failure) => CallsOfStart(c, s, request, target, failure, u);
    case EventInput(t, event) => CallsOfFlow(c, s, t, event, 0, u);
    case AckInput(t, k) => CallsOfFlow(c, s, t, "", k, u);
    case DoneInput(t, o, message, newSession) =>
      if t in s.turns {
        CallsOfEnd(s, t, StatusOf(o), message, if s.turns[t].key.engine.Claude? then newSession else None, u);
      }
    case TimeoutInput(t) =>
      CallsOfCancel(s, t, u);
      CallsOfEnd(Call(s, CancelRun(t)), t, StatusError, "resume turn timed out", None, u);
    case CancelInput(t) => CallsOfCancel(s, t, u);
    case CloseInput => CallsOfClose(s, s.order, u);
  }

  /** Over every run, each turn starts its run at most once, and a live turn holds its
      run exactly while the unacknowledged events reach the cap. */
  lemma {:induction false} RunHeldExactlyAtCap(c: Config, inputs: seq<Input>, t: TurnId)
    ensures var s := After(c, inputs);
            && CallsOk(s, t)
            && (t in s.turns ==>
                  (Held(s.calls, t) <==> s.turns[t].sent > 0 && s.turns[t].sent - s.turns[t].acked >= c.cap))
  {
    InvAlways(c, inputs);
    assert TurnOk(c, After(c, inputs), t);
    hide React, Inv, TurnOk;
    if inputs == [] {
      assert CallsOk(NoSessions, t);
    } else {
      InvAlways(c, inputs[..|inputs| - 1]);
      RunHeldExactlyAtCap(c, inputs[..|inputs| - 1], t);
      CallsReact(c, After(c, inputs[..|inputs| - 1]), inputs[|inputs| - 1], t);
    }
  }
}
