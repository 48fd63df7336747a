/** The events and acknowledgements of a turn told from the inputs alone: what a client is
    sent of it, how far it has acknowledged, and when its run is held for that. */
module SessionFlow {
  import opened Options
  import opened SessionTurns
  import opened SessionReports
  import opened SessionStory

  // ---- the flow ----

  /** The turn has been accepted and has not ended. */
  ghost predicate Live(c: Config, inputs: seq<Input>, t: TurnId) {
    t < |Turns(c, inputs)| && Ending(c, inputs, t).None?
  }

  /** The events of the run of `t` that came while the turn was live. */
  ghost function Flowed(c: Config, inputs: seq<Input>, t: TurnId): seq<string> {
    if inputs == [] then []
    else
      var init, last := inputs[..|inputs| - 1], inputs[|inputs| - 1];
      Flowed(c, init, t) + if last.EventInput? && last.turn == t && Live(c, init, t) then [last.event] else []
  }

  /** The highest acknowledgement so far, each counting for no more than had been sent. */
  ghost function Acknowledged(c: Config, inputs: seq<Input>, t: TurnId): nat {
    if inputs == [] then 0
    else
      var init, last := inputs[..|inputs| - 1], inputs[|inputs| - 1];
      var before, sent := Acknowledged(c, init, t), |Flowed(c, init, t)|;
      if !(last.AckInput? && last.turn == t && Live(c, init, t)) then before
      else if last.ackSeq > sent then (if before > sent then before else sent)
      else if last.ackSeq > before then last.ackSeq
      else before
  }

  // ---- what the manager sends ----

  function SentEvents(log: seq<Msg>, t: TurnId): seq<Msg> {
    if log == [] then []
    else
      var init, last := SentEvents(log[..|log| - 1], t), log[|log| - 1];
      if last.Event? && last.turn == t then init + [last] else init
  }

  lemma EventsSnoc(log: seq<Msg>, m: Msg, t: TurnId)
    ensures SentEvents(log + [m], t) == if m.Event? && m.turn == t then SentEvents(log, t) + [m] else SentEvents(log, t)
  {
    assert (log + [m])[..|log|] == log;
  }

  /** Numbered from one. */
  ghost predicate Numbers(sent: seq<Msg>, t: TurnId, events: seq<string>) {
    |sent| == |events| && forall i :: 0 <= i < |sent| ==> sent[i] == Event(t, i + 1, events[i])
  }

  ghost predicate FlowTold(c: Config, inputs: seq<Input>, s: Sessions, t: TurnId) {
    && Numbers(SentEvents(s.log, t), t, Flowed(c, inputs, t))
    && (t in s.turns ==> s.turns[t].sent == |Flowed(c, inputs, t)| && s.turns[t].acked == Acknowledged(c, inputs, t))
    && (t >= |Turns(c, inputs)| ==> Flowed(c, inputs, t) == [] && Acknowledged(c, inputs, t) == 0)
  }

  lemma FlowSnoc(c: Config, init: seq<Input>, last: Input, t: TurnId)
    ensures Flowed(c, init + [last], t) ==
            Flowed(c, init, t) + if last.EventInput? && last.turn == t && Live(c, init, t) then [last.event] else []
    ensures var before, sent := Acknowledged(c, init, t), |Flowed(c, init, t)|;
            Acknowledged(c, init + [last], t) ==
            if !(last.AckInput? && last.turn == t && Live(c, init, t)) then before
            else if last.ackSeq > sent then (if before > sent then before else sent)
            else if last.ackSeq > before then last.ackSeq
            else before
  {
    hide Live;
    var all := init + [last];
    assert all[..|all| - 1] == init && all[|all| - 1] == last;
  }

  /** No event of this turn, and its counters as they were. */
  ghost predicate Quiet(s: Sessions, b: Sessions, t: TurnId) {
    && SentEvents(b.log, t) == SentEvents(s.log, t)
    && (t in b.turns && t in s.turns ==> b.turns[t].sent == s.turns[t].sent && b.turns[t].acked == s.turns[t].acked)
    && (t in b.turns && t !in s.turns ==> b.turns[t].sent == 0 && b.turns[t].acked == 0 && t == s.nextTurn)
  }

  lemma EndQuiet(s: Sessions, u: TurnId, status: TurnStatus, message: string, newSession: Option<string>, t: TurnId)
    ensures Quiet(s, Finalize(s, u, status, message, newSession), t)
  {
    EventsSnoc(s.log, Result(u, status, message, newSession), t);
    hide SentEvents, Remove;
  }

  lemma {:induction false} CloseQuiet(s: Sessions, snapshot: seq<TurnId>, t: TurnId)
    ensures Quiet(s, CancelAll(s, snapshot), t) && (t in CancelAll(s, snapshot).turns ==> t in s.turns)
  {
    hide SentEvents, Finalize;
    if snapshot != [] {
      var init, u := snapshot[..|snapshot| - 1], snapshot[|snapshot| - 1];
      var b := CancelAll(s, init);
      CloseQuiet(s, init, t);
      EndQuiet(Call(b, CancelRun(u)), u, StatusCancelled, "session connection closed", None, t);
      EndForgets(Call(b, CancelRun(u)), u, t);
    }
  }

  lemma EndForgets(s: Sessions, u: TurnId, t: TurnId)
    ensures t in Finalize(s, u, StatusCancelled, "session connection closed", None).turns ==> t in s.turns
  {
  }

  lemma StartQuiet(c: Config, s: Sessions, request: nat, target: Option<Target>, failure: Option<string>, t: TurnId)
    requires Inv(c, s)
    ensures Quiet(s, Start(c, s, request, target, failure), t)
  {
    var claude := target.Some? && target.value.engine == Claude;
    StartIsAnswered(c, s, request, target, failure);
    EventsSnoc(s.log, Reject(request, HandleInvalid), t);
    EventsSnoc(s.log, Reject(request, EngineUnavailable), t);
    EventsSnoc(s.log, Reject(request, SessionBusy), t);
    var m := Accept(request, s.nextTurn, claude, !claude);
    EventsSnoc(s.log, m, t);
    if failure.Some? {
      var e := Result(s.nextTurn, StatusError, failure.value, None);
      EventsSnoc(s.log + [m], e, t);
      assert s.log + [m, e] == s.log + [m] + [e];
    }
    hide Inv, SentEvents, Start;
  }

  /** Any input but an event or an acknowledgement of this turn. */
  lemma OtherQuiet(c: Config, s: Sessions, i: Input, t: TurnId)
    requires Inv(c, s) && !((i.EventInput? || i.AckInput?) && i.turn == t)
    ensures Quiet(s, React(c, s, i), t)
  {
    hide Inv, SentEvents, Finalize, Start, CancelAll;
    match i
    case StartInput(request, target, failure) => StartQuiet(c, s, request, target, failure, t);
    case EventInput(u, event) => if u in s.turns { EventsSnoc(s.log, Event(u, s.turns[u].sent + 1, event), t); }
    case DoneInput(u, o, message, newSession) =>
      if u in s.turns {
        EndQuiet(s, u, StatusOf(o), message, if s.turns[u].key.engine.Claude? then newSession else None, t);
      }
    case TimeoutInput(u) => EndQuiet(Call(s, CancelRun(u)), u, StatusError, "resume turn timed out", None, t);
    case CloseInput => CloseQuiet(s, s.order, t);
    case _ =>
  }

  lemma EventFlows(c: Config, s: Sessions, t: TurnId, event: string)
    requires t in s.turns
    ensures var b := RunEvent(c, s, t, event);
            && SentEvents(b.log, t) == SentEvents(s.log, t) + [Event(t, s.turns[t].sent + 1, event)]
            && t in b.turns && b.turns[t].sent == s.turns[t].sent + 1 && b.turns[t].acked == s.turns[t].acked
  {
    EventsSnoc(s.log, Event(t, s.turns[t].sent + 1, event), t);
    hide SentEvents;
  }

  lemma AckFlows(c: Config, s: Sessions, t: TurnId, k: nat)
    requires t in s.turns
    ensures var b := Ack(c, s, t, k);
            && b.log == s.log && t in b.turns && b.turns[t].sent == s.turns[t].sent
            && var before, sent := s.turns[t].acked, s.turns[t].sent;
               b.turns[t].acked ==
               if k > sent then (if before > sent then before else sent) else if k > before then k else before
  {
  }

  lemma FlowReact(c: Config, init: seq<Input>, last: Input, s: Sessions, t: TurnId)
    requires Inv(c, s) && Agrees(c, init, s) && FlowTold(c, init, s, t)
    ensures FlowTold(c, init + [last], React(c, s, last), t)
  {
    hide Turns, Ending, Answers, Refusal, Cancels, SentResults, SentAnswers, AskedCancels, Flowed, Acknowledged, SentEvents;
    hide Inv, RunEvent, Ack, Start, CancelAll, Finalize;
    assert Told(c, init, s, t);
    FlowSnoc(c, init, last, t);
    StorySnoc(c, init, last, t);
    if last.EventInput? && last.turn == t {
      if t in s.turns { EventFlows(c, s, t, last.event); } else { NoFlow(c, s, t, last.event, 0); }
    } else if last.AckInput? && last.turn == t {
      if t in s.turns { AckFlows(c, s, t, last.ackSeq); } else { NoFlow(c, s, t, "", last.ackSeq); }
    } else {
      OtherQuiet(c, s, last, t);
      hide React;
      QuietTold(c, init, last, s, React(c, s, last), t);
    }
  }

  lemma NoFlow(c: Config, s: Sessions, t: TurnId, event: string, k: nat)
    requires t !in s.turns
    ensures RunEvent(c, s, t, event) == s && Ack(c, s, t, k) == s
  {
  }

  lemma QuietTold(c: Config, init: seq<Input>, last: Input, s: Sessions, b: Sessions, t: TurnId)
    requires FlowTold(c, init, s, t) && Quiet(s, b, t) && s.nextTurn == |Turns(c, init)|
    requires |Turns(c, init)| <= |Turns(c, init + [last])|
    requires Flowed(c, init + [last], t) == Flowed(c, init, t) && Acknowledged(c, init + [last], t) == Acknowledged(c, init, t)
    ensures FlowTold(c, init + [last], b, t)
  {
    hide Turns, Flowed, Acknowledged, SentEvents;
  }

  /** Over every run: a client is sent exactly the events that came while the turn was
      live, numbered from one; the counters of a live turn are theirs and that of the
      highest acknowledgement; and its run is held exactly while the difference is at or
      above the cap. */
  lemma {:induction false} FlowIsTold(c: Config, inputs: seq<Input>, t: TurnId)
    ensures var s := After(c, inputs);
            && FlowTold(c, inputs, s, t)
            && (t in s.turns <==> Live(c, inputs, t))
            && (Live(c, inputs, t) ==>
                  (Held(s.calls, t) <==>
                     |Flowed(c, inputs, t)| > 0 && |Flowed(c, inputs, t)| - Acknowledged(c, inputs, t) >= c.cap))
  {
    ManagerTellsTheStory(c, inputs);
    assert Told(c, inputs, After(c, inputs), t);
    RunHeldExactlyAtCap(c, inputs, t);
    hide React, Inv, Agrees, Turns, Ending, Held, CallsOk, SentResults, AskedCancels, Cancels;
    if inputs == [] {
      assert FlowTold(c, [], NoSessions, t);
    } else {
      var init, last := inputs[..|inputs| - 1], inputs[|inputs| - 1];
      assert inputs == init + [last];
      FlowIsTold(c, init, t);
      ManagerTellsTheStory(c, init);
      InvAlways(c, init);
      FlowReact(c, init, last, After(c, init), t);
    }
  }

  // ---- closing ----

  function Closed(snapshot: seq<TurnId>): (r: seq<Msg>)
    ensures |r| == |snapshot|
    ensures forall i :: 0 <= i < |r| ==> r[i] == Result(snapshot[i], StatusCancelled, "session connection closed", None)
  {
    seq(|snapshot|, i requires 0 <= i < |snapshot| => Result(snapshot[i], StatusCancelled, "session connection closed", None))
  }

  ghost predicate Rising(order: seq<TurnId>, bound: TurnId) {
    && (forall i, j :: 0 <= i < j < |order| ==> order[i] < order[j])
    && forall i :: 0 <= i < |order| ==> order[i] < bound
  }

  lemma {:induction false} RemoveRises(order: seq<TurnId>, t: TurnId, bound: TurnId)
    requires Rising(order, bound)
    ensures Rising(Remove(order, t), bound) && forall u :: u in Remove(order, t) ==> u in order
  {
    if order != [] {
      RemoveRises(order[1..], t, bound);
      var r := Remove(order[1..], t);
      assert order == [order[0]] + order[1..];
      forall i | 0 <= i < |r| ensures order[0] < r[i] { assert r[i] in order[1..]; }
    }
  }

  lemma EndRises(s: Sessions, t: TurnId, status: TurnStatus, message: string, newSession: Option<string>)
    requires Rising(s.order, s.nextTurn)
    ensures var b := Finalize(s, t, status, message, newSession); Rising(b.order, b.nextTurn)
  {
    RemoveRises(s.order, t, s.nextTurn);
    hide Remove;
  }

  lemma {:induction false} CloseRises(s: Sessions, snapshot: seq<TurnId>)
    requires Rising(s.order, s.nextTurn)
    ensures Rising(CancelAll(s, snapshot).order, CancelAll(s, snapshot).nextTurn)
  {
    hide Rising, Finalize;
    if snapshot != [] {
      var init, t := snapshot[..|snapshot| - 1], snapshot[|snapshot| - 1];
      CloseRises(s, init);
      EndRises(Call(CancelAll(s, init), CancelRun(t)), t, StatusCancelled, "session connection closed", None);
    }
  }

  lemma {:induction false} OrderRises(c: Config, inputs: seq<Input>)
    ensures Rising(After(c, inputs).order, After(c, inputs).nextTurn)
  {
    hide Finalize, CancelAll;
    if inputs != [] {
      var init, last := inputs[..|inputs| - 1], inputs[|inputs| - 1];
      OrderRises(c, init);
      var s := After(c, init);
      match last
      case DoneInput(t, o, message, newSession) =>
        if t in s.turns { EndRises(s, t, StatusOf(o), message, if s.turns[t].key.engine.Claude? then newSession else None); }
      case TimeoutInput(t) => EndRises(Call(s, CancelRun(t)), t, StatusError, "resume turn timed out", None);
      case CloseInput => CloseRises(s, s.order);
      case _ =>
    }
  }

  lemma {:induction false} CloseSays(s: Sessions, snapshot: seq<TurnId>)
    requires forall t :: t in snapshot ==> t in s.turns
    requires forall i, j :: 0 <= i < j < |snapshot| ==> snapshot[i] != snapshot[j]
    ensures CancelAll(s, snapshot).log == s.log + Closed(snapshot)
    ensures forall t :: t in s.turns && t !in snapshot ==> t in CancelAll(s, snapshot).turns
  {
    hide Remove;
    if snapshot != [] {
      var init, t := snapshot[..|snapshot| - 1], snapshot[|snapshot| - 1];
      assert snapshot == init + [t] && t !in init;
      CloseSays(s, init);
      assert Closed(snapshot) == Closed(init) + [Result(t, StatusCancelled, "session connection closed", None)];
    }
  }

  /** Closing the connection sends one cancelled result for each live turn and nothing
      else, in the order in which the turns were accepted. */
  lemma ClosingSays(c: Config, inputs: seq<Input>)
    ensures var s := After(c, inputs);
            && (forall i, j :: 0 <= i < j < |s.order| ==> s.order[i] < s.order[j])
            && (forall t :: t in s.order <==> t in s.turns)
            && After(c, inputs + [CloseInput]).log == s.log + Closed(s.order)
  {
    var s := After(c, inputs);
    OrderRises(c, inputs);
    InvAlways(c, inputs);
    assert OrderOk(s);
    CloseSays(s, s.order);
    assert (inputs + [CloseInput])[..|inputs|] == inputs;
    hide After, CancelAll, Inv;
  }
}
