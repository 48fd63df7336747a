/** The session resume manager over mutable turn records.  Every handler is proved to do
    what `SessionTurns` says, and to keep its invariant. */
module SessionManagement {
  import opened Options
  import opened SessionTurns

  class TurnState {
    const id: TurnId
    const key: Target
    var sentSeq: nat
    var ackedSeq: nat
    var paused: bool
    var finalized: bool

    constructor (id: TurnId, key: Target)
      ensures this.id == id && View() == Turn(key, 0, 0, false) && !finalized
    {
      this.id, this.key := id, key;
      sentSeq, ackedSeq, paused, finalized := 0, 0, false, false;
    }

    function View(): Turn
      reads this
    {
      Turn(key, sentSeq, ackedSeq, paused)
    }
  }

  class SessionResumeManager {
    const config: Config
    var active: set<Target>
    var turns: map<TurnId, TurnState>
    var turnOrder: seq<TurnId>
    var nextTurn: TurnId
    var log: seq<Msg>
    var calls: seq<RunCall>

    ghost function Turns(): map<TurnId, Turn>
      reads `turns, turns.Values
    {
      map t | t in turns :: turns[t].View()
    }

    ghost function View(): Sessions
      reads this, turns.Values
    {
      Sessions(active, Turns(), turnOrder, nextTurn, log, calls)
    }

    /** A record in the table is not finalized, and is there under its own id. */
    ghost predicate Linked()
      reads `turns, turns.Values
    {
      forall t :: t in turns ==> turns[t].id == t && !turns[t].finalized
    }

    ghost predicate Valid()
      reads this, turns.Values
    {
      Linked() && Inv(config, View())
    }

    constructor (config: Config)
      ensures Valid() && View() == NoSessions && this.config == config
    {
      this.config := config;
      active, turns, turnOrder, nextTurn, log, calls := {}, map[], [], 0, [], [];
      new;
      InvNone(config);
      assert View() == NoSessions;
    }

    lemma Known(t: TurnId)
      requires Linked()
      ensures t in turns <==> t in Turns()
      ensures t in turns ==>
                && Turns()[t] == turns[t].View() && turns[t] in turns.Values && turns[t].id == t && !turns[t].finalized
                && forall u :: u in turns && u != t ==> turns[u] != turns[t]
    {
    }

    /** One record changes: the view changes in that turn alone. */
    twostate lemma TurnChanged(t: TurnId)
      requires old(Linked()) && t in old(turns) && turns == old(turns) && !turns[t].finalized
      requires forall u :: u in turns && u != t ==> turns[u].View() == old(turns[u].View()) && !turns[u].finalized
      ensures Linked() && Turns() == old(Turns())[t := turns[t].View()]
    {
    }

    twostate lemma TurnRemoved(t: TurnId)
      requires old(Linked()) && turns == old(turns) - {t}
      requires forall u :: u in turns ==> turns[u].View() == old(turns[u].View()) && !turns[u].finalized
      ensures Linked() && Turns() == old(Turns()) - {t}
    {
    }

    twostate lemma TurnAdded(t: TurnId, new state: TurnState)
      requires old(Linked()) && turns == old(turns)[t := state] && state.id == t && !state.finalized && fresh(state)
      requires forall u :: u in old(turns) ==> old(turns)[u].View() == old(turns[u].View()) && !old(turns)[u].finalized
      ensures Linked() && Turns() == old(Turns())[t := state.View()]
    {
    }

    method SendMsg(m: Msg)
      modifies `log
      ensures log == old(log) + [m]
    {
      log := log + [m];
    }

    // ---- starting a turn ----

    method StartTurn(request: nat, target: Option<Target>, failure: Option<string>)
      requires Valid()
      modifies this
      ensures Valid() && View() == old(React(config, View(), StartInput(request, target, failure)))
    {
      hide Inv, Turns, Linked, Begin;
      InvReact(config, View(), StartInput(request, target, failure));
      if target.None? {
        SendMsg(Reject(request, HandleInvalid));
      } else if !config.hasRunner(target.value.engine) {
        SendMsg(Reject(request, EngineUnavailable));
      } else if target.value in active {
        SendMsg(Reject(request, SessionBusy));
      } else {
        BeginTurn(request, target.value, failure);
      }
    }

    /** Accept first; a runner that throws ends the turn at once. */
    method BeginTurn(request: nat, key: Target, failure: Option<string>)
      requires Linked()
      modifies this
      ensures Linked() && View() == Begin(old(View()), request, key, failure)
    {
      hide Turns, Linked;
      var t := nextTurn;
      active := active + {key};
      nextTurn := nextTurn + 1;
      SendMsg(Accept(request, t, key.engine.Claude?, key.engine.Codex?));
      if failure.Some? {
        SendMsg(Result(t, StatusError, failure.value, None));
        active := active - {key};
      } else {
        AddTurn(t, key);
        calls := calls + [StartRun(t)];
      }
    }

    method AddTurn(t: TurnId, key: Target)
      requires Linked()
      modifies `turns, `turnOrder
      ensures Linked() && Turns() == old(Turns())[t := Turn(key, 0, 0, false)] && turnOrder == old(turnOrder) + [t]
    {
      NoneFinalized();
      hide Turns, Linked;
      var state := new TurnState(t, key);
      turns := turns[t := state];
      turnOrder := turnOrder + [t];
      TurnAdded(t, state);
    }

    lemma NoneFinalized()
      requires Linked()
      ensures forall u :: u in turns ==> !turns[u].finalized
    {
    }

    // ---- callbacks of a run ----

    method HandleRunEvent(t: TurnId, event: string)
      requires Valid()
      modifies this, turns.Values
      ensures Valid() && View() == old(React(config, View(), EventInput(t, event)))
    {
      hide Inv, Turns, Linked;
      InvReact(config, View(), EventInput(t, event));
      Known(t);
      if t !in turns || turns[t].finalized { return; }
      CountEvent(t, turns[t], event);
    }

    method CountEvent(t: TurnId, state: TurnState, event: string)
      requires Linked() && t in turns && turns[t] == state
      modifies `log, `calls, state`sentSeq, state`paused
      ensures Linked() && View() == RunEvent(config, old(View()), t, event)
    {
      Known(t);
      NoneFinalized();
      hide Turns, Linked;
      state.sentSeq := state.sentSeq + 1;
      SendMsg(Event(t, state.sentSeq, event));
      if !state.paused && state.sentSeq - state.ackedSeq >= config.cap {
        state.paused := true;
        calls := calls + [PauseRun(t)];
      }
      TurnChanged(t);
    }

    method HandleRunDone(t: TurnId, outcome: RunOutcome, message: string, newSession: Option<string>)
      requires Valid()
      modifies this, turns.Values
      ensures Valid() && View() == old(React(config, View(), DoneInput(t, outcome, message, newSession)))
    {
      hide Inv, Turns, Linked, SessionTurns.Finalize;
      InvReact(config, View(), DoneInput(t, outcome, message, newSession));
      Known(t);
      if t !in turns || turns[t].finalized { return; }
      Finalize(t, StatusOf(outcome), message, if turns[t].key.engine.Claude? then newSession else None);
    }

    method HandleTimeout(t: TurnId)
      requires Valid()
      modifies this, turns.Values
      ensures Valid() && View() == old(React(config, View(), TimeoutInput(t)))
    {
      hide Inv, Turns, Linked, SessionTurns.Finalize;
      InvReact(config, View(), TimeoutInput(t));
      Known(t);
      if t !in turns || turns[t].finalized { return; }
      calls := calls + [CancelRun(t)];
      Finalize(t, StatusError, "resume turn timed out", None);
    }

    method Finalize(t: TurnId, status: TurnStatus, message: string, newSession: Option<string>)
      requires Linked()
      modifies this, turns.Values
      ensures Linked() && View() == SessionTurns.Finalize(old(View()), t, status, message, newSession)
      ensures turns == old(turns) - {t}
    {
      Known(t);
      NoneFinalized();
      hide Turns, Linked, Remove;
      if t !in turns || turns[t].finalized { return; }
      var state := turns[t];
      state.finalized := true;
      SendMsg(Result(t, status, message, newSession));
      active := active - {state.key};
      turns := turns - {t};
      turnOrder := Remove(turnOrder, t);
      TurnRemoved(t);
    }

    // ---- messages of the peer ----

    method HandleAck(t: TurnId, ackSeq: nat)
      requires Valid()
      modifies this, turns.Values
      ensures Valid() && View() == old(React(config, View(), AckInput(t, ackSeq)))
    {
      hide Inv, Turns, Linked;
      InvReact(config, View(), AckInput(t, ackSeq));
      Known(t);
      if t !in turns || turns[t].finalized { return; }
      Credit(t, turns[t], ackSeq);
    }

    method Credit(t: TurnId, state: TurnState, ackSeq: nat)
      requires Linked() && t in turns && turns[t] == state
      modifies `calls, state`ackedSeq, state`paused
      ensures Linked() && View() == Ack(config, old(View()), t, ackSeq)
    {
      Known(t);
      NoneFinalized();
      hide Turns, Linked;
      state.ackedSeq := Max(state.ackedSeq, Min(ackSeq, state.sentSeq));
      if state.paused && state.sentSeq - state.ackedSeq < config.cap {
        state.paused := false;
        calls := calls + [ResumeRun(t)];
      }
      TurnChanged(t);
    }

    method HandleCancel(t: TurnId)
      requires Valid()
      modifies `calls
      ensures Valid() && View() == old(React(config, View(), CancelInput(t)))
    {
      hide Inv, Turns, Linked;
      InvReact(config, View(), CancelInput(t));
      Known(t);
      if t !in turns || turns[t].finalized { return; }
      calls := calls + [CancelRun(t)];
    }

    /** Over a snapshot of the table: cancel the run, end the turn. */
    method CancelActiveTurns()
      requires Valid()
      modifies this, turns.Values
      ensures Valid() && View() == old(React(config, View(), CloseInput))
      ensures active == {} && turns == map[]
    {
      hide Inv, Turns, Linked, CancelAll, CancelOne;
      ghost var s := View();
      var snapshot := turnOrder;
      InvReact(config, s, CloseInput);
      CancelAllNone(s);
      var i := 0;
      while i < |snapshot|
        invariant 0 <= i <= |snapshot| && Linked() && View() == CancelAll(s, snapshot[..i])
        invariant forall t :: t in turns ==> t in old(turns) && turns[t] == old(turns)[t]
      {
        CancelAllNext(s, snapshot, i);
        CancelAndFinalize(snapshot[i]);
        i := i + 1;
      }
      assert snapshot[..i] == snapshot;
      AllGone(s);
    }

    method CancelAndFinalize(t: TurnId)
      requires Linked()
      modifies this, turns.Values
      ensures Linked() && View() == CancelOne(old(View()), t) && turns == old(turns) - {t}
    {
      hide Turns, Linked, SessionTurns.Finalize;
      Known(t);
      if t !in turns || turns[t].finalized { return; }
      calls := calls + [CancelRun(t)];
      Finalize(t, StatusCancelled, "session connection closed", None);
    }

    lemma AllGone(s: Sessions)
      requires Inv(config, s) && Linked() && View() == CancelAll(s, s.order)
      ensures active == {} && turns == map[]
    {
      CancelAllKeeps(config, s, s.order);
      assert OrderOk(s);
      NothingLeft(config, View()) by { hide Inv, CancelAll; }
      assert turns.Keys == Turns().Keys == {};
    }
  }

  lemma CancelAllNone(s: Sessions)
    ensures CancelAll(s, []) == s
  {
  }

  lemma CancelAllNext(s: Sessions, snapshot: seq<TurnId>, i: nat)
    requires i < |snapshot|
    ensures CancelAll(s, snapshot[..i + 1]) == CancelOne(CancelAll(s, snapshot[..i]), snapshot[i])
  {
    assert snapshot[..i + 1][..i] == snapshot[..i];
  }
}
