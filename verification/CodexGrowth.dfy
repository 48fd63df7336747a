/** What lines appended to a Codex session log do to its history. Appended results and
    events fill and extend earlier calls, and an open entry takes more calls. But an event
    whose call had not been seen stands on its own, and when the call arrives it moves
    there: that is exactly when an earlier entry changes otherwise. */
module CodexGrowth {
  import opened Options
  import opened HistoryLimits
  import opened ToolCorrelation
  import opened CodexHistory

  // ---- how calls and entries may grow ----

  /** A correlated call may gain a missing result and further events; an event stays. */
  ghost predicate CallGrown(a: Call, b: Call) {
    if a.FromEvent? then b == a
    else
      && b.Correlated? && b.id == a.id && b.name == a.name && b.input == a.input
      && (a.result.Some? ==> b.result == a.result) && a.events <= b.events
  }

  ghost predicate CallsGrown(a: seq<Call>, b: seq<Call>) {
    |a| <= |b| && forall j :: 0 <= j < |a| ==> CallGrown(a[j], b[j])
  }

  ghost predicate EntryGrown(a: Entry, b: Entry) {
    b.line == a.line && b.role == a.role && b.content == a.content && CallsGrown(a.calls, b.calls)
  }

  /** Earlier entries stay where they are and grow; only the last one gains calls. */
  ghost predicate OnlyGrown(a: seq<Entry>, b: seq<Entry>) {
    && |a| <= |b|
    && (forall i :: 0 <= i < |a| ==> EntryGrown(a[i], b[i]))
    && (forall i :: 0 <= i < |a| - 1 ==> |b[i].calls| == |a[i].calls|)
  }

  /** An event shown on its own whose call is among `known`. */
  ghost predicate ShownLate(entries: seq<Entry>, known: set<string>, i: nat, j: nat) {
    && i < |entries| && j < |entries[i].calls| && entries[i].calls[j].FromEvent?
    && entries[i].calls[j].event.callId != "" && entries[i].calls[j].event.callId in known
  }

  ghost predicate NoneLate(entries: seq<Entry>, known: set<string>) {
    forall i, j :: !ShownLate(entries, known, i, j)
  }

  // ---- the first pass on a longer log ----

  lemma {:induction false} EventsExtend(lines: seq<Line>, more: seq<Line>, id: string)
    ensures EventsFor(lines, id) <= EventsFor(lines + more, id)
  {
    if more == [] {
      assert lines + more == lines;
    } else {
      EventsExtend(lines, more[..|more| - 1], id);
      assert (lines + more)[..|lines + more| - 1] == lines + more[..|more| - 1];
    }
  }

  lemma {:induction false} KnownExtend(lines: seq<Line>, more: seq<Line>)
    ensures KnownCalls(lines) <= KnownCalls(lines + more)
  {
    if more == [] {
      assert lines + more == lines;
    } else {
      KnownExtend(lines, more[..|more| - 1]);
      assert (lines + more)[..|lines + more| - 1] == lines + more[..|more| - 1];
    }
  }

  lemma {:induction false} ResultsExtend(lines: seq<Line>, more: seq<Line>) returns (rest: seq<Tagged>)
    ensures ResultsIn(lines + more) == ResultsIn(lines) + rest
  {
    if more == [] {
      rest := [];
      assert lines + more == lines;
    } else {
      var last := more[|more| - 1];
      rest := ResultsExtend(lines, more[..|more| - 1]);
      assert (lines + more)[..|lines + more| - 1] == lines + more[..|more| - 1];
      if last.item.OutputItem? && last.item.id != "" { rest := rest + [Tagged(last.item.id, last.item.result)]; }
    }
  }

  lemma CallOfGrows(lines: seq<Line>, more: seq<Line>, before: seq<string>, item: Item)
    requires Eligible(item)
    ensures CallGrown(CallOf(lines, before, item), CallOf(lines + more, before, item))
  {
    var rest := ResultsExtend(lines, more);
    EventsExtend(lines, more, item.id);
    ResultStays(ResultsIn(lines), rest, before, item.id);
  }

  // ---- attaching ----

  /** The same entries, with calls that have grown, as many in each. */
  ghost predicate InStep(p: Progress, q: Progress) {
    && |p.entries| == |q.entries| && p.open == q.open && (p.open ==> p.entries != [])
    && forall i :: 0 <= i < |p.entries| ==>
         EntryGrown(p.entries[i], q.entries[i]) && |q.entries[i].calls| == |p.entries[i].calls| <= HISTORY_PAGE_MAX
  }

  lemma AttachInStep(p: Progress, q: Progress, line: nat, a: Call, b: Call)
    requires InStep(p, q) && CallGrown(a, b)
    ensures InStep(Attach(p, line, a), Attach(q, line, b))
  {
    hide CallGrown;
    var n := |p.entries| - 1;
    if p.open {
      var c, d := p.entries[n].calls + [a], q.entries[n].calls + [b];
      assert CallsGrown(c, d);
      assert CallsGrown(Shown(c), Shown(d));
    }
  }

  /** What was shown stays shown. */
  lemma AttachShows(p: Progress, line: nat, call: Call, known: set<string>)
    requires NoneLate(Attach(p, line, call).entries, known)
    requires forall i :: 0 <= i < |p.entries| ==> |p.entries[i].calls| <= HISTORY_PAGE_MAX
    ensures NoneLate(p.entries, known)
  {
    var b := Attach(p, line, call).entries;
    forall i: nat, j: nat ensures !ShownLate(p.entries, known, i, j) {
      if i < |p.entries| && j < |p.entries[i].calls| {
        assert b[i].calls[j] == p.entries[i].calls[j];
        assert !ShownLate(b, known, i, j);
      }
    }
  }

  /** An event that moves to its call was not shown, so without it nothing is missing. */
  lemma UnseenAttach(p: Progress, line: nat, call: Call, known: set<string>)
    requires NoneLate(Attach(p, line, call).entries, known)
    requires call.FromEvent? && call.event.callId != "" && call.event.callId in known
    requires forall i :: 0 <= i < |p.entries| ==> |p.entries[i].calls| <= HISTORY_PAGE_MAX
    ensures Attach(p, line, call) == p
  {
    var b := Attach(p, line, call).entries;
    var n := |b| - 1;
    assert !ShownLate(b, known, n, |b[n].calls| - 1);
    assert p.open && p.entries != [] && |p.entries[n].calls| == HISTORY_PAGE_MAX;
    assert Shown(p.entries[n].calls + [call]) == p.entries[n].calls;
    assert b == p.entries;
  }

  ghost predicate WithinPage(p: Progress) {
    && (p.open ==> p.entries != [])
    && forall i :: 0 <= i < |p.entries| ==> |p.entries[i].calls| <= HISTORY_PAGE_MAX
  }

  lemma StepWithinPage(all: seq<Line>, before: seq<string>, p: Progress, line: Line)
    requires WithinPage(p)
    ensures WithinPage(Step(all, before, p, line))
  {
    hide CallOf, KnownCalls;
  }

  lemma {:induction false} WalkWithinPage(all: seq<Line>, lines: seq<Line>)
    ensures WithinPage(Walk(all, lines))
  {
    hide Step, WithinPage, CallIdsIn;
    if lines == [] {
      assert WithinPage(Progress([], false)) by { NothingWithinPage(); }
    } else {
      var init := lines[..|lines| - 1];
      WalkWithinPage(all, init);
      StepWithinPage(all, CallIdsIn(init), Walk(all, init), lines[|lines| - 1]);
    }
  }

  lemma NothingWithinPage()
    ensures WithinPage(Progress([], false))
  {
  }

  // ---- the earlier lines again, with what is known later ----

  lemma StepInStep(lines: seq<Line>, more: seq<Line>, before: seq<string>, p: Progress, q: Progress, line: Line)
    requires InStep(p, q) && KnownCalls(lines) <= KnownCalls(lines + more)
    requires NoneLate(Step(lines, before, p, line).entries, KnownCalls(lines + more))
    ensures InStep(Step(lines, before, p, line), Step(lines + more, before, q, line))
  {
    var all, item := lines + more, line.item;
    hide CallGrown, CallOf, KnownCalls, Attach;
    if Eligible(item) {
      CallOfGrows(lines, more, before, item);
      AttachInStep(p, q, line.index, CallOf(lines, before, item), CallOf(all, before, item));
    } else if Orphan(KnownCalls(lines), item) {
      var call := FromEvent(item.event, line.index);
      EventStays(call);
      AttachInStep(p, q, line.index, call, call);
      if !Orphan(KnownCalls(all), item) { UnseenAttach(p, line.index, call, KnownCalls(all)); }
    }
  }

  lemma EventStays(call: Call)
    requires call.FromEvent?
    ensures CallGrown(call, call)
  {
  }

  lemma StepShows(all: seq<Line>, before: seq<string>, p: Progress, line: Line, known: set<string>)
    requires NoneLate(Step(all, before, p, line).entries, known)
    requires forall i :: 0 <= i < |p.entries| ==> |p.entries[i].calls| <= HISTORY_PAGE_MAX
    ensures NoneLate(p.entries, known)
  {
    var item := line.item;
    hide CallOf, KnownCalls, Attach;
    if Eligible(item) {
      AttachShows(p, line.index, CallOf(all, before, item), known);
    } else if Orphan(KnownCalls(all), item) {
      AttachShows(p, line.index, FromEvent(item.event, line.index), known);
    } else {
      var b := Step(all, before, p, line).entries;
      forall i: nat, j: nat ensures !ShownLate(p.entries, known, i, j) {
        assert !ShownLate(b, known, i, j);
        assert i < |p.entries| ==> b[i] == p.entries[i];
      }
    }
  }

  lemma {:induction false} WalkInStep(lines: seq<Line>, more: seq<Line>, start: seq<Line>)
    requires NoneLate(Walk(lines, start).entries, KnownCalls(lines + more))
    ensures InStep(Walk(lines, start), Walk(lines + more, start))
  {
    if start != [] {
      var init, last := start[..|start| - 1], start[|start| - 1];
      var before := CallIdsIn(init);
      WalkWithinPage(lines, init);
      KnownExtend(lines, more);
      hide Step, InStep, KnownCalls, CallIdsIn, NoneLate;
      StepShows(lines, before, Walk(lines, init), last, KnownCalls(lines + more));
      WalkInStep(lines, more, init);
      StepInStep(lines, more, before, Walk(lines, init), Walk(lines + more, init), last);
    }
  }

  // ---- the appended lines ----

  /** Entries only come after, and only an open last one takes calls. */
  ghost predicate Continued(a: seq<Entry>, open: bool, b: seq<Entry>) {
    && |a| <= |b|
    && (forall i :: 0 <= i < |a| - (if open then 1 else 0) ==> b[i] == a[i])
    && (open && a != [] ==> b[|a| - 1] == a[|a| - 1].(calls := b[|a| - 1].calls) && a[|a| - 1].calls <= b[|a| - 1].calls)
  }

  lemma AttachContinues(a: seq<Entry>, open: bool, p: Progress, line: nat, call: Call)
    requires Continued(a, open, p.entries) && (p.open && |p.entries| == |a| ==> open)
    requires forall i :: 0 <= i < |p.entries| ==> |p.entries[i].calls| <= HISTORY_PAGE_MAX
    ensures Continued(a, open, Attach(p, line, call).entries)
    ensures |Attach(p, line, call).entries| == |a| ==> open
  {
  }

  lemma StepContinues(all: seq<Line>, before: seq<string>, a: seq<Entry>, open: bool, q: Progress, line: Line)
    requires Continued(a, open, q.entries) && (q.open && |q.entries| == |a| ==> open)
    requires forall i :: 0 <= i < |q.entries| ==> |q.entries[i].calls| <= HISTORY_PAGE_MAX
    ensures var r := Step(all, before, q, line); Continued(a, open, r.entries) && (r.open && |r.entries| == |a| ==> open)
  {
    var item := line.item;
    hide CallOf, KnownCalls, Attach, Continued;
    if Eligible(item) {
      AttachContinues(a, open, q, line.index, CallOf(all, before, item));
    } else if Orphan(KnownCalls(all), item) {
      AttachContinues(a, open, q, line.index, FromEvent(item.event, line.index));
    } else if item.Message? && item.role.Some? {
      MessageContinues(a, open, q.entries, Entry(line.index, item.role.value, item.content, []));
    }
  }

  lemma {:induction false} WalkContinues(all: seq<Line>, lines: seq<Line>, more: seq<Line>)
    ensures var p, q := Walk(all, lines), Walk(all, lines + more);
            Continued(p.entries, p.open, q.entries) && (q.open && |q.entries| == |p.entries| ==> p.open)
  {
    hide Walk, Step, CallIdsIn;
    if more == [] {
      assert lines + more == lines;
    } else {
      var init, last := more[..|more| - 1], more[|more| - 1];
      var p, q := Walk(all, lines), Walk(all, lines + init);
      WalkContinues(all, lines, init);
      WalkWithinPage(all, lines + init);
      WalkSnoc(all, lines + init, last, lines + more);
      StepContinues(all, CallIdsIn(lines + init), p.entries, p.open, q, last);
    }
  }

  lemma WalkSnoc(all: seq<Line>, init: seq<Line>, last: Line, lines: seq<Line>)
    requires lines == init + [last]
    ensures Walk(all, lines) == Step(all, CallIdsIn(init), Walk(all, init), last)
  {
    assert lines[..|lines| - 1] == init;
  }

  lemma MessageContinues(a: seq<Entry>, open: bool, b: seq<Entry>, e: Entry)
    requires Continued(a, open, b)
    ensures Continued(a, open, b + [e]) && |b + [e]| > |a|
  {
  }

  // ---- exactly when earlier entries only grow ----

  lemma GrownTogether(p: Progress, q: Progress, b: seq<Entry>)
    requires InStep(p, q) && Continued(q.entries, q.open, b)
    ensures OnlyGrown(p.entries, b)
  {
    hide CallGrown;
    forall i | 0 <= i < |p.entries| ensures EntryGrown(p.entries[i], b[i]) {
      assert forall j :: 0 <= j < |q.entries[i].calls| ==> b[i].calls[j] == q.entries[i].calls[j];
    }
  }

  /** No event whose call is in the log stands on its own. */
  lemma OwnCallsNeverLate(all: seq<Line>)
    ensures NoneLate(History(all), KnownCalls(all))
  {
    var b := History(all);
    ShownCallsAreEarned(all, all);
    hide Walk, KnownCalls, CallIdsIn;
    forall i: nat, j: nat ensures !ShownLate(b, KnownCalls(all), i, j) {
      if i < |b| && j < |b[i].calls| {
        assert Earned(all, all, b[i].calls[j]);
        var k :| 0 <= k < |all| && EarnedAt(all, all, b[i].calls[j], k);
      }
    }
  }

  /** So an event shown on its own cannot stay when its call arrives. */
  lemma LateIsNotGrown(lines: seq<Line>, more: seq<Line>, i: nat, j: nat)
    requires ShownLate(History(lines), KnownCalls(lines + more), i, j)
    ensures !OnlyGrown(History(lines), History(lines + more))
  {
    OwnCallsNeverLate(lines + more);
    assert !ShownLate(History(lines + more), KnownCalls(lines + more), i, j);
    hide Walk, KnownCalls, NoneLate;
  }

  /** Appending whole lines leaves every earlier entry in place and only grows it, exactly
      if no event shown on its own finds its call in the longer log. */
  lemma AppendingOnlyGrowsIff(lines: seq<Line>, more: seq<Line>)
    ensures OnlyGrown(History(lines), History(lines + more)) <==> NoneLate(History(lines), KnownCalls(lines + more))
  {
    var a, b := History(lines), History(lines + more);
    if NoneLate(a, KnownCalls(lines + more)) {
      WalkInStep(lines, more, lines);
      WalkContinues(lines + more, lines, more);
      GrownTogether(Walk(lines, lines), Walk(lines + more, lines), b);
    } else {
      var i, j :| ShownLate(a, KnownCalls(lines + more), i, j);
      LateIsNotGrown(lines, more, i, j);
    }
    hide Walk, KnownCalls, OnlyGrown;
  }
}
