/** Session turns told from the requests and reports alone: which starts are accepted, who
    keeps a session busy, and with what result a turn ends. None of it mentions the
    tables of the manager, which are proved to agree. */
module SessionStory {
  import opened Options
  import opened SessionTurns
  import opened SessionReports

  // ---- the story ----

  /** The targets of the accepted starts so far; a turn is known by its place in it. */
  ghost function Turns(c: Config, inputs: seq<Input>): seq<Target>
    decreases |inputs|, 2
  {
    if inputs == [] then []
    else
      var init, last := inputs[..|inputs| - 1], inputs[|inputs| - 1];
      Turns(c, init) + if last.StartInput? && Refusal(c, init, last.target).None? then [last.target.value] else []
  }

  /** A turn of this session was accepted and has not ended. */
  ghost predicate Busy(c: Config, inputs: seq<Input>, k: Target)
    decreases |inputs|, 3
  {
    exists t: TurnId :: t < |Turns(c, inputs)| && Turns(c, inputs)[t] == k && Ending(c, inputs, t).None?
  }

  /** The first reason that applies. */
  ghost function Refusal(c: Config, inputs: seq<Input>, target: Option<Target>): Option<RejectCode>
    decreases |inputs|, 4
  {
    if target.None? then Some(HandleInvalid)
    else if !c.hasRunner(target.value.engine) then Some(EngineUnavailable)
    else if Busy(c, inputs, target.value) then Some(SessionBusy)
    else None
  }

  /** How turn `t` ended: by whatever came first. A fork has a new session, and only a
      Claude turn forks. */
  ghost function Ending(c: Config, inputs: seq<Input>, t: TurnId): Option<Msg>
    decreases |inputs|, 1
  {
    if inputs == [] then None
    else
      var init, last := inputs[..|inputs| - 1], inputs[|inputs| - 1];
      var n := |Turns(c, init)|;
      if Ending(c, init, t).Some? then Ending(c, init, t)
      else if t > n then None
      else if t == n then
        if last.StartInput? && last.failure.Some? && Refusal(c, init, last.target).None?
        then Some(Result(t, StatusError, last.failure.value, None)) else None
      else
        match last
        case DoneInput(u, o, message, newSession) =>
          if u != t then None
          else
            var status := if o.RunSuccess? then StatusOk else if o.RunCancelled? then StatusCancelled else StatusError;
            Some(Result(t, status, message, if Turns(c, init)[t].engine == Claude then newSession else None))
        case TimeoutInput(u) => if u == t then Some(Result(t, StatusError, "resume turn timed out", None)) else None
        case CloseInput => Some(Result(t, StatusCancelled, "session connection closed", None))
        case _ => None
  }

  /** The answers to the starts, in order. */
  ghost function Answers(c: Config, inputs: seq<Input>): seq<Msg> {
    if inputs == [] then []
    else
      var init, last := inputs[..|inputs| - 1], inputs[|inputs| - 1];
      Answers(c, init)
      + if !last.StartInput? then []
        else match Refusal(c, init, last.target)
          case Some(code) => [Reject(last.request, code)]
          case None =>
            var claude := last.target.value.engine == Claude;
            [Accept(last.request, |Turns(c, init)|, claude, !claude)]
  }

  /** How often the run of turn `t` is to be cancelled: on request, on timeout and when
      the connection closes, as long as the turn has not ended. */
  ghost function Cancels(c: Config, inputs: seq<Input>, t: TurnId): nat {
    if inputs == [] then 0
    else
      var init, last := inputs[..|inputs| - 1], inputs[|inputs| - 1];
      var live := t < |Turns(c, init)| && Ending(c, init, t).None?;
      Cancels(c, init, t)
      + if live && (last == CancelInput(t) || last == TimeoutInput(t) || last.CloseInput?) then 1 else 0
  }

  // ---- what the manager says and asks ----

  function SentAnswers(log: seq<Msg>): seq<Msg> {
    if log == [] then []
    else
      var init, last := SentAnswers(log[..|log| - 1]), log[|log| - 1];
      if last.Accept? || last.Reject? then init + [last] else init
  }

  function SentResults(log: seq<Msg>, t: TurnId): seq<Msg> {
    if log == [] then []
    else
      var init, last := SentResults(log[..|log| - 1], t), log[|log| - 1];
      if last.Result? && last.turn == t then init + [last] else init
  }

  function AskedCancels(calls: seq<RunCall>, t: TurnId): nat {
    if calls == [] then 0
    else AskedCancels(calls[..|calls| - 1], t) + if calls[|calls| - 1] == CancelRun(t) then 1 else 0
  }

  lemma SentSnoc(log: seq<Msg>, m: Msg, t: TurnId)
    ensures SentAnswers(log + [m]) == if m.Accept? || m.Reject? then SentAnswers(log) + [m] else SentAnswers(log)
    ensures SentResults(log + [m], t) == if m.Result? && m.turn == t then SentResults(log, t) + [m] else SentResults(log, t)
  {
    assert (log + [m])[..|log|] == log;
  }

  lemma AskedSnoc(calls: seq<RunCall>, call: RunCall, t: TurnId)
    ensures AskedCancels(calls + [call], t) == AskedCancels(calls, t) + if call == CancelRun(t) then 1 else 0
  {
    assert (calls + [call])[..|calls|] == calls;
  }

  /** Everything the story says about one turn. */
  ghost predicate Told(c: Config, inputs: seq<Input>, s: Sessions, t: TurnId) {
    && (t in s.turns <==> t < |Turns(c, inputs)| && Ending(c, inputs, t).None?)
    && (t in s.turns ==> s.turns[t].key == Turns(c, inputs)[t])
    && SentResults(s.log, t) == (if Ending(c, inputs, t).Some? then [Ending(c, inputs, t).value] else [])
    && AskedCancels(s.calls, t) == Cancels(c, inputs, t)
    && (t >= |Turns(c, inputs)| ==> Ending(c, inputs, t).None? && Cancels(c, inputs, t) == 0)
  }

  ghost predicate Agrees(c: Config, inputs: seq<Input>, s: Sessions) {
    && s.nextTurn == |Turns(c, inputs)|
    && SentAnswers(s.log) == Answers(c, inputs)
    && forall t: TurnId :: Told(c, inputs, s, t)
  }

  /** The busy set is what the story calls busy. */
  lemma BusyAgrees(c: Config, inputs: seq<Input>, s: Sessions, k: Target)
    requires Inv(c, s) && Agrees(c, inputs, s)
    ensures k in s.active <==> Busy(c, inputs, k)
  {
    hide Turns, Ending, Trace, Running, Over, SentResults, SentAnswers, Answers, AskedCancels, Cancels;
    if k in s.active {
      var t :| t in s.turns && s.turns[t].key == k;
      assert Told(c, inputs, s, t);
    }
    if Busy(c, inputs, k) {
      var t: TurnId :| t < |Turns(c, inputs)| && Turns(c, inputs)[t] == k && Ending(c, inputs, t).None?;
      assert Told(c, inputs, s, t);
    }
  }

  // ---- one input ----

  /** The story of one more input, from the story so far. */
  lemma StorySnoc(c: Config, init: seq<Input>, last: Input, t: TurnId)
    ensures var all, n := init + [last], |Turns(c, init)|;
            var accepted := last.StartInput? && Refusal(c, init, last.target).None?;
            && Turns(c, all) == Turns(c, init) + (if accepted then [last.target.value] else [])
            && (!last.StartInput? ==> Answers(c, all) == Answers(c, init))
            && (last.StartInput? && !accepted ==>
                  Answers(c, all) == Answers(c, init) + [Reject(last.request, Refusal(c, init, last.target).value)])
            && (accepted ==>
                  var claude := last.target.value.engine == Claude;
                  Answers(c, all) == Answers(c, init) + [Accept(last.request, n, claude, !claude)])
            && (Ending(c, init, t).Some? ==> Ending(c, all, t) == Ending(c, init, t))
            && (Ending(c, init, t).None? && t > n ==> Ending(c, all, t).None?)
            && (Ending(c, init, t).None? && t == n ==>
                  Ending(c, all, t) ==
                  if accepted && last.failure.Some? then Some(Result(t, StatusError, last.failure.value, None)) else None)
  {
    var all := init + [last];
    assert all[..|all| - 1] == init && all[|all| - 1] == last;
    hide Refusal;
  }

  lemma LiveSnoc(c: Config, init: seq<Input>, last: Input, t: TurnId)
    requires t < |Turns(c, init)| && Ending(c, init, t).None?
    ensures var all := init + [last];
            Ending(c, all, t) ==
            match last
            case DoneInput(u, o, message, newSession) =>
              if u != t then None
              else
                var status := if o.RunSuccess? then StatusOk else if o.RunCancelled? then StatusCancelled else StatusError;
                Some(Result(t, status, message, if Turns(c, init)[t].engine == Claude then newSession else None))
            case TimeoutInput(u) => if u == t then Some(Result(t, StatusError, "resume turn timed out", None)) else None
            case CloseInput => Some(Result(t, StatusCancelled, "session connection closed", None))
            case _ => None
  {
    var all := init + [last];
    assert all[..|all| - 1] == init && all[|all| - 1] == last;
  }

  lemma CancelsSnoc(c: Config, init: seq<Input>, last: Input, t: TurnId)
    ensures var live := t < |Turns(c, init)| && Ending(c, init, t).None?;
            Cancels(c, init + [last], t) ==
            Cancels(c, init, t)
            + if live && (last == CancelInput(t) || last == TimeoutInput(t) || last.CloseInput?) then 1 else 0
  {
    var all := init + [last];
    assert all[..|all| - 1] == init && all[|all| - 1] == last;
    hide Turns, Ending;
  }

  /** What one input does to one turn, told from the state before. */
  ghost predicate Moves(s: Sessions, b: Sessions, t: TurnId, key: Option<Target>, sent: seq<Msg>, cancels: nat) {
    && (t in b.turns <==> key.Some?) && (t in b.turns ==> b.turns[t].key == key.value)
    && SentResults(b.log, t) == SentResults(s.log, t) + sent
    && AskedCancels(b.calls, t) == AskedCancels(s.calls, t) + cancels
  }

  function KeyOf(s: Sessions, t: TurnId): Option<Target> {
    if t in s.turns then Some(s.turns[t].key) else None
  }

  lemma EventMoves(c: Config, s: Sessions, u: TurnId, event: string, t: TurnId)
    ensures var b := RunEvent(c, s, u, event);
            Moves(s, b, t, KeyOf(s, t), [], 0) && b.nextTurn == s.nextTurn && SentAnswers(b.log) == SentAnswers(s.log)
  {
    hide SentResults, SentAnswers, AskedCancels;
    if u in s.turns {
      SentSnoc(s.log, Event(u, s.turns[u].sent + 1, event), t);
      AskedSnoc(s.calls, PauseRun(u), t);
    }
  }

  lemma AckMoves(c: Config, s: Sessions, u: TurnId, k: nat, t: TurnId)
    ensures var b := Ack(c, s, u, k); Moves(s, b, t, KeyOf(s, t), [], 0) && b.nextTurn == s.nextTurn && b.log == s.log
  {
    AskedSnoc(s.calls, ResumeRun(u), t);
    hide SentResults, SentAnswers, AskedCancels;
  }

  lemma CancelMoves(s: Sessions, u: TurnId, t: TurnId)
    ensures var b := CancelTurn(s, u);
            && Moves(s, b, t, KeyOf(s, t), [], if u == t && t in s.turns then 1 else 0)
            && b.nextTurn == s.nextTurn && b.log == s.log
  {
    AskedSnoc(s.calls, CancelRun(u), t);
    hide SentResults, SentAnswers, AskedCancels;
  }

  lemma DoneMoves(c: Config, s: Sessions, u: TurnId, o: RunOutcome, message: string, newSession: Option<string>, t: TurnId)
    requires Inv(c, s)
    ensures var b := RunDone(s, u, o, message, newSession);
            var status := if o.RunSuccess? then StatusOk else if o.RunCancelled? then StatusCancelled else StatusError;
            && b.nextTurn == s.nextTurn && SentAnswers(b.log) == SentAnswers(s.log)
            && (u != t || t !in s.turns ==> Moves(s, b, t, KeyOf(s, t), [], 0))
            && (u == t && t in s.turns ==>
                  Moves(s, b, t, None,
                        [Result(t, status, message, if s.turns[t].key.engine == Claude then newSession else None)], 0))
  {
    hide Inv, SentResults, SentAnswers, AskedCancels, Remove;
    EndIsReported(c, s, u, o, message, newSession);
    if u in s.turns {
      var m := RunDone(s, u, o, message, newSession).log[|s.log|];
      assert RunDone(s, u, o, message, newSession).log == s.log + [m];
      SentSnoc(s.log, m, t);
    }
  }

  lemma TimeoutMoves(c: Config, s: Sessions, u: TurnId, t: TurnId)
    requires Inv(c, s)
    ensures var b := Timeout(s, u);
            && b.nextTurn == s.nextTurn && SentAnswers(b.log) == SentAnswers(s.log)
            && (u != t || t !in s.turns ==> Moves(s, b, t, KeyOf(s, t), [], 0))
            && (u == t && t in s.turns ==>
                  Moves(s, b, t, None, [Result(t, StatusError, "resume turn timed out", None)], 1))
  {
    if u in s.turns {
      CancelReachesRun(c, s, u);
      SentSnoc(s.log, Result(u, StatusError, "resume turn timed out", None), t);
      AskedSnoc(s.calls, CancelRun(u), t);
    }
    hide Inv, SentResults, SentAnswers, AskedCancels, Remove;
  }

  /** The story goes on as the turn moves. */
  lemma StepTold(c: Config, init: seq<Input>, last: Input, s: Sessions, b: Sessions, t: TurnId,
                 key: Option<Target>, sent: seq<Msg>, cancels: nat)
    requires Told(c, init, s, t) && Moves(s, b, t, key, sent, cancels) && !last.StartInput?
    requires cancels == if t in s.turns && (last == CancelInput(t) || last == TimeoutInput(t) || last.CloseInput?) then 1 else 0
    requires t !in s.turns ==> sent == [] && key.None?
    requires t in s.turns ==>
               var e := Ending(c, init + [last], t);
               sent == (if e.Some? then [e.value] else []) && key == if e.Some? then None else KeyOf(s, t)
    ensures Told(c, init + [last], b, t)
  {
    StorySnoc(c, init, last, t);
    CancelsSnoc(c, init, last, t);
    hide Turns, Ending, Cancels, Answers, Refusal, SentResults, AskedCancels;
  }

  lemma OtherTold(c: Config, init: seq<Input>, last: Input, s: Sessions, t: TurnId)
    requires Inv(c, s) && Told(c, init, s, t) && !last.StartInput? && !last.CloseInput?
    ensures Told(c, init + [last], React(c, s, last), t)
    ensures React(c, s, last).nextTurn == s.nextTurn && SentAnswers(React(c, s, last).log) == SentAnswers(s.log)
  {
    if t in s.turns { LiveSnoc(c, init, last, t); }
    hide Inv, Turns, Ending, Cancels, Answers, Refusal, SentResults, SentAnswers, AskedCancels, Moves;
    hide RunEvent, Ack, CancelTurn, RunDone, Timeout;
    var b := React(c, s, last);
    match last
    case EventInput(u, event) => EventMoves(c, s, u, event, t); StepTold(c, init, last, s, b, t, KeyOf(s, t), [], 0);
    case AckInput(u, k) => AckMoves(c, s, u, k, t); StepTold(c, init, last, s, b, t, KeyOf(s, t), [], 0);
    case CancelInput(u) =>
      CancelMoves(s, u, t);
      StepTold(c, init, last, s, b, t, KeyOf(s, t), [], if u == t && t in s.turns then 1 else 0);
    case DoneInput(u, o, message, newSession) =>
      DoneMoves(c, s, u, o, message, newSession, t);
      if u == t && t in s.turns {
        StepTold(c, init, last, s, b, t, None, [Ending(c, init + [last], t).value], 0);
      } else {
        StepTold(c, init, last, s, b, t, KeyOf(s, t), [], 0);
      }
    case TimeoutInput(u) =>
      TimeoutMoves(c, s, u, t);
      if u == t && t in s.turns {
        StepTold(c, init, last, s, b, t, None, [Ending(c, init + [last], t).value], 1);
      } else {
        StepTold(c, init, last, s, b, t, KeyOf(s, t), [], 0);
      }
  }

  /** A start, refused or accepted. */
  lemma StartTold(c: Config, init: seq<Input>, last: Input, s: Sessions, t: TurnId)
    requires Inv(c, s) && Agrees(c, init, s) && last.StartInput?
    ensures Told(c, init + [last], React(c, s, last), t)
    ensures React(c, s, last).nextTurn == |Turns(c, init + [last])|
    ensures SentAnswers(React(c, s, last).log) == Answers(c, init + [last])
  {
    hide Inv, Agrees, Told, Turns, Ending, Cancels, Answers, Busy, SentAnswers;
    if Refusal(c, init, last.target).Some? { RefusedTold(c, init, last, s, t); } else { BegunTold(c, init, last, s, t); }
  }

  /** The table and the history agree on the reason for a refusal. */
  lemma RefusedIs(c: Config, init: seq<Input>, last: Input, s: Sessions)
    requires Inv(c, s) && Agrees(c, init, s) && last.StartInput? && Refusal(c, init, last.target).Some?
    ensures React(c, s, last) == s.(log := s.log + [Reject(last.request, Refusal(c, init, last.target).value)])
  {
    hide Start, Inv, Busy, Agrees;
    if last.target.Some? { BusyAgrees(c, init, s, last.target.value); }
    StartIsAnswered(c, s, last.request, last.target, last.failure);
  }

  lemma RefusedTold(c: Config, init: seq<Input>, last: Input, s: Sessions, t: TurnId)
    requires Inv(c, s) && Agrees(c, init, s) && last.StartInput? && Refusal(c, init, last.target).Some?
    ensures Told(c, init + [last], React(c, s, last), t)
    ensures React(c, s, last).nextTurn == |Turns(c, init + [last])|
    ensures SentAnswers(React(c, s, last).log) == Answers(c, init + [last])
  {
    var code := Refusal(c, init, last.target).value;
    RefusedIs(c, init, last, s);
    hide React, Inv, Turns, Ending, Cancels, Answers, Refusal, SentResults, SentAnswers, AskedCancels;
    assert Told(c, init, s, t);
    StorySnoc(c, init, last, t);
    CancelsSnoc(c, init, last, t);
    if t < |Turns(c, init)| && Ending(c, init, t).None? { LiveSnoc(c, init, last, t); }
    SentSnoc(s.log, Reject(last.request, code), t);
  }

  lemma BegunTold(c: Config, init: seq<Input>, last: Input, s: Sessions, t: TurnId)
    requires Inv(c, s) && Agrees(c, init, s) && last.StartInput? && Refusal(c, init, last.target).None?
    ensures Told(c, init + [last], React(c, s, last), t)
    ensures React(c, s, last).nextTurn == |Turns(c, init + [last])|
    ensures SentAnswers(React(c, s, last).log) == Answers(c, init + [last])
  {
    assert Told(c, init, s, t);
    BusyAgrees(c, init, s, last.target.value);
    assert c.hasRunner(last.target.value.engine) && last.target.value !in s.active by { hide Busy, Inv; }
    BegunMoves(c, s, last, t);
    hide React, Inv, Turns, Ending, Cancels, Answers, Refusal, SentResults, SentAnswers, AskedCancels;
    StorySnoc(c, init, last, t);
    CancelsSnoc(c, init, last, t);
    if t < |Turns(c, init)| && Ending(c, init, t).None? { LiveSnoc(c, init, last, t); }
  }

  lemma BegunMoves(c: Config, s: Sessions, last: Input, t: TurnId)
    requires Inv(c, s) && last.StartInput? && last.target.Some?
    requires c.hasRunner(last.target.value.engine) && last.target.value !in s.active
    ensures var b, n, claude := React(c, s, last), s.nextTurn, last.target.value.engine == Claude;
            && b.nextTurn == n + 1 && SentAnswers(b.log) == SentAnswers(s.log) + [Accept(last.request, n, claude, !claude)]
            && (t != n ==> Moves(s, b, t, KeyOf(s, t), [], 0))
            && (t == n ==>
                  Moves(s, b, t, if last.failure.None? then last.target else None,
                        if last.failure.None? then [] else [Result(n, StatusError, last.failure.value, None)], 0))
  {
    hide Start, Inv, SentResults, SentAnswers, AskedCancels;
    StartIsAnswered(c, s, last.request, last.target, last.failure);
    AcceptedTold(s, last, t);
  }

  lemma AcceptedTold(s: Sessions, last: Input, t: TurnId)
    requires last.StartInput? && last.target.Some?
    ensures var n, claude := s.nextTurn, last.target.value.engine == Claude;
            var m, e := Accept(last.request, n, claude, !claude), Result(n, StatusError, if last.failure.Some? then last.failure.value else "", None);
            && SentAnswers(s.log + [m]) == SentAnswers(s.log) + [m] && SentAnswers(s.log + [m, e]) == SentAnswers(s.log) + [m]
            && SentResults(s.log + [m], t) == SentResults(s.log, t)
            && SentResults(s.log + [m, e], t) == SentResults(s.log, t) + (if t == n then [e] else [])
            && AskedCancels(s.calls + [StartRun(n)], t) == AskedCancels(s.calls, t)
  {
    var n, claude := s.nextTurn, last.target.value.engine == Claude;
    var m, e := Accept(last.request, n, claude, !claude), Result(n, StatusError, if last.failure.Some? then last.failure.value else "", None);
    SentSnoc(s.log, m, t);
    SentSnoc(s.log + [m], e, t);
    AskedSnoc(s.calls, StartRun(n), t);
    assert s.log + [m, e] == (s.log + [m]) + [e];
  }

  /** Closing cancels and ends each turn of the snapshot once. */
  lemma {:induction false} CloseAll(c: Config, s: Sessions, snapshot: seq<TurnId>, t: TurnId)
    requires forall i, j :: 0 <= i < j < |snapshot| ==> snapshot[i] != snapshot[j]
    ensures var b := CancelAll(s, snapshot);
            var m := Result(t, StatusCancelled, "session connection closed", None);
            && b.nextTurn == s.nextTurn && SentAnswers(b.log) == SentAnswers(s.log)
            && (t in b.turns <==> t in s.turns && t !in snapshot)
            && (t in b.turns ==> b.turns[t] == s.turns[t])
            && SentResults(b.log, t) == SentResults(s.log, t) + (if t in s.turns && t in snapshot then [m] else [])
            && AskedCancels(b.calls, t) == AskedCancels(s.calls, t) + if t in s.turns && t in snapshot then 1 else 0
  {
    hide SentResults, SentAnswers, AskedCancels, Remove;
    if snapshot != [] {
      var init, u := snapshot[..|snapshot| - 1], snapshot[|snapshot| - 1];
      var b := CancelAll(s, init);
      assert snapshot == init + [u] && u !in init;
      CloseAll(c, s, init, t);
      CloseAll(c, s, init, u);
      SentSnoc(b.log, Result(u, StatusCancelled, "session connection closed", None), t);
      AskedSnoc(b.calls, CancelRun(u), t);
    }
  }

  lemma CloseTold(c: Config, init: seq<Input>, s: Sessions, t: TurnId)
    requires Inv(c, s) && Told(c, init, s, t)
    ensures Told(c, init + [CloseInput], React(c, s, CloseInput), t)
    ensures React(c, s, CloseInput).nextTurn == s.nextTurn && SentAnswers(React(c, s, CloseInput).log) == SentAnswers(s.log)
  {
    assert OrderOk(s);
    CloseAll(c, s, s.order, t);
    StorySnoc(c, init, CloseInput, t);
    CancelsSnoc(c, init, CloseInput, t);
    if t < |Turns(c, init)| && Ending(c, init, t).None? { LiveSnoc(c, init, CloseInput, t); }
    hide Turns, Ending, Cancels, Answers, Refusal, SentResults, SentAnswers, AskedCancels, CancelAll, Inv;
  }

  lemma AgreesReact(c: Config, init: seq<Input>, last: Input, s: Sessions)
    requires Inv(c, s) && Agrees(c, init, s)
    ensures Agrees(c, init + [last], React(c, s, last))
  {
    StorySnoc(c, init, last, 0);
    hide Inv, React, Turns, Answers, Told, Refusal, Ending;
    forall t: TurnId ensures Told(c, init + [last], React(c, s, last), t) { AgreesAt(c, init, last, s, t); }
    AgreesAt(c, init, last, s, 0);
  }

  lemma AgreesAt(c: Config, init: seq<Input>, last: Input, s: Sessions, t: TurnId)
    requires Inv(c, s) && Agrees(c, init, s)
    ensures Told(c, init + [last], React(c, s, last), t)
    ensures last.StartInput? ==> React(c, s, last).nextTurn == |Turns(c, init + [last])|
    ensures last.StartInput? ==> SentAnswers(React(c, s, last).log) == Answers(c, init + [last])
    ensures !last.StartInput? ==> React(c, s, last).nextTurn == s.nextTurn
    ensures !last.StartInput? ==> SentAnswers(React(c, s, last).log) == SentAnswers(s.log)
  {
    assert Told(c, init, s, t);
    hide Inv, React, Turns, Answers, Told;
    if last.StartInput? {
      StartTold(c, init, last, s, t);
    } else if last.CloseInput? {
      CloseTold(c, init, s, t);
    } else {
      OtherTold(c, init, last, s, t);
    }
  }

  // ---- over every run ----

  lemma StoryOfNone(c: Config)
    ensures Agrees(c, [], NoSessions)
  {
  }

  /** Over every run the manager tells the story: each start gets one answer, in order,
      refused exactly for the first reason that applies and as busy exactly while an
      earlier turn of that session has not ended; each turn sends one result exactly once
      it has ended, for what ended it first; and its run is cancelled exactly as often as
      that was asked while it was live. */
  lemma {:induction false} ManagerTellsTheStory(c: Config, inputs: seq<Input>)
    ensures Agrees(c, inputs, After(c, inputs))
  {
    if inputs == [] {
      StoryOfNone(c);
    } else {
      var init, last := inputs[..|inputs| - 1], inputs[|inputs| - 1];
      assert inputs == init + [last];
      ManagerTellsTheStory(c, init);
      InvAlways(c, init);
      hide Agrees, Inv, React;
      AgreesReact(c, init, last, After(c, init));
    }
  }

  /** What has ended stays ended as it did, in every continuation. */
  lemma {:induction false} EndingIsFinal(c: Config, inputs: seq<Input>, more: seq<Input>, t: TurnId)
    requires Ending(c, inputs, t).Some?
    ensures Ending(c, inputs + more, t) == Ending(c, inputs, t)
  {
    if more == [] {
      assert inputs + more == inputs;
    } else {
      var init, last := more[..|more| - 1], more[|more| - 1];
      EndingIsFinal(c, inputs, init, t);
      assert inputs + more == (inputs + init) + [last];
      StorySnoc(c, inputs + init, last, t);
      hide Ending, Turns, Answers, Refusal;
    }
  }

  /** After a cancellation of a live turn, in every continuation in which its run reports,
      the run has been asked to stop and the turn has sent exactly one result; it is the
      result of what came first. */
  lemma CancelledTurnReportsOnce(c: Config, inputs: seq<Input>, t: TurnId, more: seq<Input>, end: Input, rest: seq<Input>)
    requires t in After(c, inputs).turns && end.DoneInput? && end.turn == t
    ensures var before, all := inputs + [CancelInput(t)] + more, inputs + [CancelInput(t)] + more + [end] + rest;
            && AskedCancels(After(c, all).calls, t) > 0
            && Ending(c, all, t).Some? && SentResults(After(c, all).log, t) == [Ending(c, all, t).value]
            && (t in After(c, before).turns ==>
                  && Ending(c, all, t).value.Result? && Ending(c, all, t).value.message == end.message
                  && (Ending(c, all, t).value.status == StatusOk <==> end.outcome == RunSuccess))
  {
    var a := inputs + [CancelInput(t)];
    var before := a + more;
    var ended := before + [end];
    var all := ended + rest;
    CancelWasAsked(c, inputs, t, more + [end] + rest);
    assert a + (more + [end] + rest) == all;
    LiveBeforeEnd(c, inputs, t, more);
    ManagerTellsTheStory(c, all);
    assert Told(c, all, After(c, all), t);
    hide Agrees, After, Turns, Ending, Cancels, Answers, Refusal, SentResults, SentAnswers, AskedCancels;
    if Ending(c, before, t).Some? { StorySnoc(c, before, end, t); } else { LiveSnoc(c, before, end, t); }
    EndingIsFinal(c, ended, rest, t);
  }

  lemma CancelWasAsked(c: Config, inputs: seq<Input>, t: TurnId, more: seq<Input>)
    requires t in After(c, inputs).turns
    ensures Cancels(c, inputs + [CancelInput(t)] + more, t) > 0
  {
    ManagerTellsTheStory(c, inputs);
    assert Told(c, inputs, After(c, inputs), t);
    CancelsSnoc(c, inputs, CancelInput(t), t);
    StoryGrows(c, inputs + [CancelInput(t)], more, t);
  }

  lemma LiveBeforeEnd(c: Config, inputs: seq<Input>, t: TurnId, more: seq<Input>)
    requires t in After(c, inputs).turns
    ensures var before := inputs + [CancelInput(t)] + more;
            t < |Turns(c, before)| && (t in After(c, before).turns <==> Ending(c, before, t).None?)
  {
    var before := inputs + [CancelInput(t)] + more;
    ManagerTellsTheStory(c, inputs);
    ManagerTellsTheStory(c, before);
    assert Told(c, inputs, After(c, inputs), t) && Told(c, before, After(c, before), t);
    StoryGrows(c, inputs, [CancelInput(t)] + more, t);
    assert inputs + ([CancelInput(t)] + more) == before;
  }

  lemma {:induction false} StoryGrows(c: Config, inputs: seq<Input>, more: seq<Input>, t: TurnId)
    ensures |Turns(c, inputs)| <= |Turns(c, inputs + more)| && Cancels(c, inputs, t) <= Cancels(c, inputs + more, t)
  {
    if more == [] {
      assert inputs + more == inputs;
    } else {
      var init, last := more[..|more| - 1], more[|more| - 1];
      StoryGrows(c, inputs, init, t);
      assert inputs + more == (inputs + init) + [last];
      StorySnoc(c, inputs + init, last, t);
      CancelsSnoc(c, inputs + init, last, t);
      hide Turns, Cancels, Ending, Answers, Refusal;
    }
  }
}
