/** Session resume turns as functions on values: the busy set, the turn table, and the
    messages and runner calls of every handler. */
module SessionTurns {
  import opened Options

  type TurnId = nat
  datatype Engine = Claude | Codex

  /** A resolved session handle.  Its engine, session id and directory are also the key
      under which a session is busy. */
  datatype Target = Target(engine: Engine, session: string, cwd: string)

  datatype TurnStatus = StatusOk | StatusError | StatusCancelled
  datatype RejectCode = HandleInvalid | EngineUnavailable | SessionBusy
  datatype RunOutcome = RunSuccess | RunError | RunCancelled

  datatype Msg =
    | Accept(request: nat, turn: TurnId, fork: bool, mutatesSource: bool)
    | Reject(request: nat, code: RejectCode)
    | Event(turn: TurnId, seqNo: nat, event: string)
    | Result(turn: TurnId, status: TurnStatus, message: string, newSession: Option<string>)

  datatype RunCall = StartRun(turn: TurnId) | PauseRun(turn: TurnId) | ResumeRun(turn: TurnId) | CancelRun(turn: TurnId)

  datatype Turn = Turn(key: Target, sent: nat, acked: nat, paused: bool)

  /** `order` is the insertion order of the turn table. */
  datatype Sessions = Sessions(
    active: set<Target>, turns: map<TurnId, Turn>, order: seq<TurnId>, nextTurn: TurnId,
    log: seq<Msg>, calls: seq<RunCall>)

  datatype Config = Config(cap: nat, hasRunner: Engine -> bool)

  const NoSessions: Sessions := Sessions({}, map[], [], 0, [], [])

  function Send(s: Sessions, m: Msg): Sessions {
    s.(log := s.log + [m])
  }

  function Call(s: Sessions, c: RunCall): Sessions {
    s.(calls := s.calls + [c])
  }

  function Remove(order: seq<TurnId>, t: TurnId): seq<TurnId> {
    if order == [] then []
    else if order[0] == t then Remove(order[1..], t)
    else [order[0]] + Remove(order[1..], t)
  }

  /** The one place where a turn ends: one result, and both tables forget it. */
  function Finalize(s: Sessions, t: TurnId, status: TurnStatus, message: string, newSession: Option<string>): Sessions {
    if t !in s.turns then s
    else
      Send(s, Result(t, status, message, newSession))
        .(active := s.active - {s.turns[t].key}, turns := s.turns - {t}, order := Remove(s.order, t))
  }

  /** `failure` is the message of a runner that throws instead of starting. */
  function Begin(s: Sessions, request: nat, key: Target, failure: Option<string>): Sessions {
    var t := s.nextTurn;
    var s1 := Send(s.(active := s.active + {key}, nextTurn := t + 1),
                   Accept(request, t, key.engine.Claude?, key.engine.Codex?));
    if failure.Some? then
      Send(s1, Result(t, StatusError, failure.value, None)).(active := s1.active - {key})
    else
      Call(s1.(turns := s.turns[t := Turn(key, 0, 0, false)], order := s.order + [t]), StartRun(t))
  }

  function Start(c: Config, s: Sessions, request: nat, target: Option<Target>, failure: Option<string>): Sessions {
    if target.None? then Send(s, Reject(request, HandleInvalid))
    else if !c.hasRunner(target.value.engine) then Send(s, Reject(request, EngineUnavailable))
    else if target.value in s.active then Send(s, Reject(request, SessionBusy))
    else Begin(s, request, target.value, failure)
  }

  function RunEvent(c: Config, s: Sessions, t: TurnId, event: string): Sessions {
    if t !in s.turns then s
    else
      var turn := s.turns[t].(sent := s.turns[t].sent + 1);
      var s1 := Send(s.(turns := s.turns[t := turn]), Event(t, turn.sent, event));
      if !turn.paused && turn.sent - turn.acked >= c.cap then
        Call(s1.(turns := s.turns[t := turn.(paused := true)]), PauseRun(t))
      else s1
  }

  function StatusOf(o: RunOutcome): TurnStatus {
    match o
    case RunSuccess => StatusOk
    case RunCancelled => StatusCancelled
    case RunError => StatusError
  }

  /** A fork has a new session, and only the Claude plan forks. */
  function RunDone(s: Sessions, t: TurnId, o: RunOutcome, message: string, newSession: Option<string>): Sessions {
    if t !in s.turns then s
    else Finalize(s, t, StatusOf(o), message, if s.turns[t].key.engine.Claude? then newSession else None)
  }

  function Timeout(s: Sessions, t: TurnId): Sessions {
    if t !in s.turns then s else Finalize(Call(s, CancelRun(t)), t, StatusError, "resume turn timed out", None)
  }

  function Max(a: nat, b: nat): nat { if a < b then b else a }
  function Min(a: nat, b: nat): nat { if a < b then a else b }

  function Ack(c: Config, s: Sessions, t: TurnId, k: nat): Sessions {
    if t !in s.turns then s
    else
      var turn := s.turns[t].(acked := Max(s.turns[t].acked, Min(k, s.turns[t].sent)));
      if turn.paused && turn.sent - turn.acked < c.cap then
        Call(s.(turns := s.turns[t := turn.(paused := false)]), ResumeRun(t))
      else s.(turns := s.turns[t := turn])
  }

  function CancelTurn(s: Sessions, t: TurnId): Sessions {
    if t in s.turns then Call(s, CancelRun(t)) else s
  }

  function CancelOne(s: Sessions, t: TurnId): Sessions {
    if t !in s.turns then s
    else Finalize(Call(s, CancelRun(t)), t, StatusCancelled, "session connection closed", None)
  }

  /** Over a snapshot of the table, in insertion order. */
  function CancelAll(s: Sessions, snapshot: seq<TurnId>): Sessions {
    if snapshot == [] then s else CancelOne(CancelAll(s, snapshot[..|snapshot| - 1]), snapshot[|snapshot| - 1])
  }

  datatype Input =
    | StartInput(request: nat, target: Option<Target>, failure: Option<string>)
    | EventInput(turn: TurnId, event: string)
    | DoneInput(turn: TurnId, outcome: RunOutcome, message: string, newSession: Option<string>)
    | TimeoutInput(turn: TurnId)
    | AckInput(turn: TurnId, ackSeq: nat)
    | CancelInput(turn: TurnId)
    | CloseInput

  function React(c: Config, s: Sessions, i: Input): Sessions {
    match i
    case StartInput(request, target, failure) => Start(c, s, request, target, failure)
    case EventInput(t, event) => RunEvent(c, s, t, event)
    case DoneInput(t, o, message, newSession) => RunDone(s, t, o, message, newSession)
    case TimeoutInput(t) => Timeout(s, t)
    case AckInput(t, k) => Ack(c, s, t, k)
    case CancelInput(t) => CancelTurn(s, t)
    case CloseInput => CancelAll(s, s.order)
  }

  // ---- invariant ----

  /** The messages about one turn. */
  function Trace(log: seq<Msg>, t: TurnId): seq<Msg> {
    if log == [] then []
    else
      var init, last := Trace(log[..|log| - 1], t), log[|log| - 1];
      if !last.Reject? && last.turn == t then init + [last] else init
  }

  lemma TraceSnoc(log: seq<Msg>, m: Msg, t: TurnId)
    ensures Trace(log + [m], t) == if !m.Reject? && m.turn == t then Trace(log, t) + [m] else Trace(log, t)
  {
    assert (log + [m])[..|log|] == log;
  }

  /** An accept, then events 1 to n. */
  ghost predicate Running(trace: seq<Msg>, n: nat) {
    |trace| == n + 1 && trace[0].Accept? && forall i :: 1 <= i <= n ==> trace[i].Event? && trace[i].seqNo == i
  }

  /** The same, then exactly one result, and nothing after it. */
  ghost predicate Over(trace: seq<Msg>) {
    |trace| >= 2 && trace[|trace| - 1].Result? && Running(trace[..|trace| - 1], |trace| - 2)
  }

  ghost predicate TurnOk(c: Config, s: Sessions, t: TurnId) {
    if t in s.turns then
      var turn := s.turns[t];
      && t < s.nextTurn && turn.acked <= turn.sent
      && (turn.paused <==> turn.sent > 0 && turn.sent - turn.acked >= c.cap)
      && Running(Trace(s.log, t), turn.sent)
    else if t < s.nextTurn then Over(Trace(s.log, t))
    else Trace(s.log, t) == []
  }

  /** The busy set is the set of keys of the live turns, and no key is live twice. */
  ghost predicate KeysOk(s: Sessions) {
    && (forall t :: t in s.turns ==> s.turns[t].key in s.active)
    && (forall k :: k in s.active ==> exists t :: t in s.turns && s.turns[t].key == k)
    && (forall t, u :: t in s.turns && u in s.turns && s.turns[t].key == s.turns[u].key ==> t == u)
  }

  ghost predicate OrderOk(s: Sessions) {
    && (forall t :: t in s.order <==> t in s.turns)
    && (forall i, j :: 0 <= i < j < |s.order| ==> s.order[i] != s.order[j])
  }

  ghost predicate Inv(c: Config, s: Sessions) {
    && (forall t: TurnId :: TurnOk(c, s, t))
    && KeysOk(s) && OrderOk(s)
  }

  lemma {:induction false} RemoveFacts(order: seq<TurnId>, t: TurnId)
    requires forall i, j :: 0 <= i < j < |order| ==> order[i] != order[j]
    ensures var r := Remove(order, t);
            && (forall u :: u in r <==> u in order && u != t)
            && (forall i, j :: 0 <= i < j < |r| ==> r[i] != r[j])
  {
    if order != [] {
      RemoveFacts(order[1..], t);
      var r := Remove(order[1..], t);
      assert order == [order[0]] + order[1..];
      forall i | 0 <= i < |r| ensures r[i] != order[0] { assert r[i] in order[1..]; }
    }
  }

  lemma CallKeeps(c: Config, s: Sessions, call: RunCall)
    requires Inv(c, s)
    ensures Inv(c, Call(s, call))
  {
    hide Trace, Running, Over;
    var b := Call(s, call);
    forall t: TurnId ensures TurnOk(c, b, t) { assert TurnOk(c, s, t); }
  }

  lemma RejectKeeps(c: Config, s: Sessions, request: nat, code: RejectCode)
    requires Inv(c, s)
    ensures Inv(c, Send(s, Reject(request, code)))
  {
    hide Trace, Running, Over;
    var b := Send(s, Reject(request, code));
    forall t: TurnId ensures TurnOk(c, b, t) {
      assert TurnOk(c, s, t);
      TraceSnoc(s.log, Reject(request, code), t);
    }
  }

  lemma FinalizeKeeps(c: Config, s: Sessions, t: TurnId, status: TurnStatus, message: string, newSession: Option<string>)
    requires Inv(c, s)
    ensures Inv(c, Finalize(s, t, status, message, newSession))
  {
    if t in s.turns {
      var m, b := Result(t, status, message, newSession), Finalize(s, t, status, message, newSession);
      FinalizeTables(s, b, t);
      hide Trace, KeysOk, OrderOk, Remove;
      forall u: TurnId ensures TurnOk(c, b, u) {
        assert TurnOk(c, s, u);
        TraceSnoc(s.log, m, u);
        if u == t { ResultEnds(Trace(s.log, t), s.turns[t].sent, m); }
        hide Running, Over;
      }
    }
  }

  lemma ResultEnds(trace: seq<Msg>, n: nat, m: Msg)
    requires Running(trace, n) && m.Result?
    ensures Over(trace + [m])
  {
    assert (trace + [m])[..|trace|] == trace;
  }

  lemma FinalizeTables(s: Sessions, b: Sessions, t: TurnId)
    requires KeysOk(s) && OrderOk(s) && t in s.turns
    requires b.turns == s.turns - {t} && b.active == s.active - {s.turns[t].key} && b.order == Remove(s.order, t)
    ensures KeysOk(b) && OrderOk(b)
  {
    RemoveFacts(s.order, t);
    hide Remove;
    forall k | k in b.active ensures exists u :: u in b.turns && b.turns[u].key == k {
      var u :| u in s.turns && s.turns[u].key == k;
      assert u in b.turns && b.turns[u].key == k;
    }
  }

  /** One turn's counters move, with or without an event; keys stay. */
  lemma CountersKeep(c: Config, s: Sessions, b: Sessions, t: TurnId)
    requires Inv(c, s) && t in s.turns && t in b.turns && TurnOk(c, b, t)
    requires b.turns == s.turns[t := b.turns[t]] && b.turns[t].key == s.turns[t].key
    requires b.active == s.active && b.order == s.order && b.nextTurn == s.nextTurn
    requires forall u: TurnId :: u != t ==> Trace(b.log, u) == Trace(s.log, u)
    ensures Inv(c, b)
  {
    hide Trace, Running, Over;
    forall u: TurnId ensures TurnOk(c, b, u) { assert TurnOk(c, s, u); }
    assert KeysOk(b) by {
      forall k | k in b.active ensures exists u :: u in b.turns && b.turns[u].key == k {
        var u :| u in s.turns && s.turns[u].key == k;
        assert b.turns[u].key == k;
      }
    }
  }

  lemma EventRuns(trace: seq<Msg>, n: nat, m: Msg)
    requires Running(trace, n) && m.Event? && m.seqNo == n + 1
    ensures Running(trace + [m], n + 1)
  {
  }

  lemma RunEventKeeps(c: Config, s: Sessions, t: TurnId, event: string)
    requires Inv(c, s)
    ensures Inv(c, RunEvent(c, s, t, event))
  {
    if t in s.turns {
      var b, m := RunEvent(c, s, t, event), Event(t, s.turns[t].sent + 1, event);
      assert TurnOk(c, s, t);
      forall u: TurnId ensures u != t ==> Trace(b.log, u) == Trace(s.log, u) { TraceSnoc(s.log, m, u); }
      TraceSnoc(s.log, m, t);
      assert b.log == s.log + [m];
      hide Trace, KeysOk, OrderOk;
      EventRuns(Trace(s.log, t), s.turns[t].sent, m);
      assert TurnOk(c, b, t) by { hide Inv, Running; }
      CountersKeep(c, s, b, t) by { hide Inv, TurnOk, Running; }
    }
  }

  lemma AckKeeps(c: Config, s: Sessions, t: TurnId, k: nat)
    requires Inv(c, s)
    ensures Inv(c, Ack(c, s, t, k))
  {
    if t in s.turns {
      var b := Ack(c, s, t, k);
      assert TurnOk(c, s, t);
      assert b.log == s.log;
      hide Trace, KeysOk, OrderOk, Running;
      assert TurnOk(c, b, t);
      CountersKeep(c, s, b, t) by { hide Inv, TurnOk; }
    }
  }

  lemma BeginKeeps(c: Config, s: Sessions, request: nat, key: Target, failure: Option<string>)
    requires Inv(c, s) && key !in s.active
    ensures Inv(c, Begin(s, request, key, failure))
  {
    var b := Begin(s, request, key, failure);
    assert TurnOk(c, s, s.nextTurn) && s.nextTurn !in s.turns && s.nextTurn !in s.order;
    BeginTables(s, b, key, failure);
    hide KeysOk, OrderOk;
    forall u: TurnId ensures TurnOk(c, b, u) {
      assert TurnOk(c, s, u);
      BeginTurn(c, s, request, key, failure, u);
    }
  }

  lemma BeginTurn(c: Config, s: Sessions, request: nat, key: Target, failure: Option<string>, u: TurnId)
    requires TurnOk(c, s, u) && s.nextTurn !in s.turns
    ensures TurnOk(c, Begin(s, request, key, failure), u)
  {
    hide Trace, Running, Over;
    var t, m := s.nextTurn, Accept(request, s.nextTurn, key.engine.Claude?, key.engine.Codex?);
    TraceSnoc(s.log, m, u);
    AcceptRuns(m);
    if u == t { assert [] + [m] == [m]; }
    if failure.Some? {
      var e := Result(t, StatusError, failure.value, None);
      TraceSnoc(s.log + [m], e, u);
      ResultEnds([m], 0, e);
    }
  }

  lemma AcceptRuns(m: Msg)
    requires m.Accept?
    ensures Running([m], 0)
  {
  }

  lemma BeginTables(s: Sessions, b: Sessions, key: Target, failure: Option<string>)
    requires KeysOk(s) && OrderOk(s) && key !in s.active && s.nextTurn !in s.turns && s.nextTurn !in s.order
    requires if failure.Some? then b.active == s.active + {key} - {key} && b.turns == s.turns && b.order == s.order
             else
               && b.active == s.active + {key} && b.turns == s.turns[s.nextTurn := Turn(key, 0, 0, false)]
               && b.order == s.order + [s.nextTurn]
    ensures KeysOk(b) && OrderOk(b)
  {
    forall k | k in b.active ensures exists u :: u in b.turns && b.turns[u].key == k {
      if k in s.active {
        var u :| u in s.turns && s.turns[u].key == k;
        assert b.turns[u].key == k;
      } else {
        assert b.turns[s.nextTurn].key == k;
      }
    }
  }

  lemma {:induction false} CancelAllKeeps(c: Config, s: Sessions, snapshot: seq<TurnId>)
    requires Inv(c, s)
    ensures var b := CancelAll(s, snapshot);
            Inv(c, b) && forall t :: t in b.turns <==> t in s.turns && t !in snapshot
  {
    if snapshot != [] {
      var init, t := snapshot[..|snapshot| - 1], snapshot[|snapshot| - 1];
      assert snapshot == init + [t];
      CancelAllKeeps(c, s, init);
      var b := CancelAll(s, init);
      CallKeeps(c, b, CancelRun(t));
      FinalizeKeeps(c, Call(b, CancelRun(t)), t, StatusCancelled, "session connection closed", None);
      hide Inv;
    }
  }

  /** Every handler and callback keeps the invariant. */
  lemma InvReact(c: Config, s: Sessions, i: Input)
    requires Inv(c, s)
    ensures Inv(c, React(c, s, i))
  {
    hide Inv, Finalize, Begin, RunEvent, Ack, CancelAll;
    match i
    case StartInput(request, target, failure) =>
      RejectKeeps(c, s, request, HandleInvalid);
      RejectKeeps(c, s, request, EngineUnavailable);
      RejectKeeps(c, s, request, SessionBusy);
      if target.Some? && target.value !in s.active { BeginKeeps(c, s, request, target.value, failure); }
    case EventInput(t, event) => RunEventKeeps(c, s, t, event);
    case DoneInput(t, o, message, newSession) =>
      if t in s.turns {
        FinalizeKeeps(c, s, t, StatusOf(o), message, if s.turns[t].key.engine.Claude? then newSession else None);
      }
    case TimeoutInput(t) =>
      CallKeeps(c, s, CancelRun(t));
      FinalizeKeeps(c, Call(s, CancelRun(t)), t, StatusError, "resume turn timed out", None);
    case AckInput(t, k) => AckKeeps(c, s, t, k);
    case CancelInput(t) => CallKeeps(c, s, CancelRun(t));
    case CloseInput => CancelAllKeeps(c, s, s.order);
  }

  // ---- whole runs ----

  ghost function After(c: Config, inputs: seq<Input>): Sessions {
    if inputs == [] then NoSessions else React(c, After(c, inputs[..|inputs| - 1]), inputs[|inputs| - 1])
  }

  lemma InvNone(c: Config)
    ensures Inv(c, NoSessions)
  {
  }

  /** Over every run: the busy set is the set of live keys, no key is live twice, every
      accepted turn has events 1, 2, … and then at most one result with nothing after
      it, and a turn is paused exactly while its unacked events reach the cap. */
  lemma {:induction false} InvAlways(c: Config, inputs: seq<Input>)
    ensures Inv(c, After(c, inputs))
  {
    if inputs == [] {
      InvNone(c);
    } else {
      InvAlways(c, inputs[..|inputs| - 1]);
      InvReact(c, After(c, inputs[..|inputs| - 1]), inputs[|inputs| - 1]);
    }
  }

  /** Closing the session connection empties both tables, and every turn ever accepted
      then has its one result. */
  lemma CloseEndsEverything(c: Config, inputs: seq<Input>)
    ensures var s := After(c, inputs + [CloseInput]);
            && s.active == {} && s.turns == map[] && s.order == []
            && forall t: TurnId :: t < s.nextTurn ==> Over(Trace(s.log, t))
  {
    var a := After(c, inputs);
    InvAlways(c, inputs);
    CancelAllKeeps(c, a, a.order);
    assert (inputs + [CloseInput])[..|inputs|] == inputs;
    assert OrderOk(a);
    hide After, CancelAll, Inv;
    NothingLeft(c, CancelAll(a, a.order));
  }

  lemma NothingLeft(c: Config, s: Sessions)
    requires Inv(c, s) && forall t: TurnId :: t !in s.turns
    ensures s.active == {} && s.turns == map[] && s.order == []
    ensures forall t: TurnId :: t < s.nextTurn ==> Over(Trace(s.log, t))
  {
    hide Trace, Over, Running;
    HasMember(s.order);
    assert s.turns.Keys == {};
    forall t: TurnId | t < s.nextTurn ensures Over(Trace(s.log, t)) { assert TurnOk(c, s, t); }
  }

  lemma HasMember(order: seq<TurnId>)
    ensures order == [] || exists t: TurnId :: t in order
  {
    if order != [] { assert order[0] in order; }
  }

  /** A start is accepted exactly when the handle resolves, its engine has a runner and
      the session is not busy; then the session is busy until the turn ends. */
  lemma AcceptedIff(c: Config, s: Sessions, request: nat, target: Option<Target>, failure: Option<string>)
    requires Inv(c, s)
    ensures var b := Start(c, s, request, target, failure);
            var accepted := target.Some? && c.hasRunner(target.value.engine) &&
                            forall t :: t in s.turns ==> s.turns[t].key != target.value;
            && (b.nextTurn == s.nextTurn + 1 <==> accepted)
            && (!accepted ==> b == Send(s, b.log[|b.log| - 1]) && b.log[|b.log| - 1].Reject?)
  {
    hide Trace, Running, Over;
  }
}
