/** How a resume run ends: exactly once, with the outcome that applies, and as soon as
    nothing holds it back. */
module StreamEnds {
  import opened Options
  import opened LineStream
  import opened StreamTheorems

  /** A closed run that is not held is over; the report says why, and a run that was
      cancelled first never reports the outcome of its process. */
  ghost predicate EndOk<E>(s: Run<E>) {
    && (s.closed.Some? && !s.paused ==> s.finished)
    && (s.report == Some(ByCancel) ==> s.cancelled)
    && (s.report.Some? && s.report.value.ByCancelledClose? ==> s.cancelled && s.closed == Some(s.report.value.outcome))
    && (s.report.Some? && s.report.value.ByClose? ==> !s.cancelled && s.closed == Some(s.report.value.outcome))
  }

  /** Draining changes none of what ends a run. */
  lemma DrainEnds<E>(p: Parser<E>, s: Run<E>, flush: bool, wants: Callback)
    requires Settled(s) && Faithful(p, s) && p.blank("")
    ensures var t := Drain(p, s, flush, wants);
            && t.finished == s.finished && t.report == s.report && t.closed == s.closed && t.cancelled == s.cancelled
  {
    DrainStep(p, s, flush, wants);
    hide Faithful, Drain;
  }

  lemma CloseEnds<E>(p: Parser<E>, s: Run<E>, wants: Callback)
    requires Inv(p, s) && p.blank("") && !s.finished && s.closed.Some?
    ensures var t := MaybeFinishClosed(p, s, wants); EndOk(t) && (s.cancelled || !s.paused ==> t.finished)
  {
    if !s.cancelled && !s.paused { DrainEnds(p, s, true, wants); }
    hide Drain, Faithful;
  }

  lemma ResumeEnds<E>(p: Parser<E>, s: Run<E>, wants: Callback)
    requires Inv(p, s) && p.blank("") && EndOk(s)
    ensures EndOk(ResumeCall(p, s, wants))
  {
    if !s.finished && s.paused {
      var s0 := s.(paused := false);
      var s1 := FlushPending(s0, wants);
      assert All(s0) == All(s);
      FlushKeepsAll(s0, wants);
      if !s1.paused {
        var s2 := Drain(p, s1, s1.closed.Some?, wants);
        DrainStep(p, s1, s1.closed.Some?, wants);
        if !s2.paused && s2.closed.Some? {
          assert Inv(p, s2);
          CloseEnds(p, s2, wants);
        }
      }
    }
    hide Drain, Faithful, FlushPending, MaybeFinishClosed;
  }

  lemma EndReact<E>(p: Parser<E>, s: Run<E>, input: Input, wants: Callback)
    requires Inv(p, s) && Enabled(s, input) && p.blank("") && EndOk(s)
    ensures EndOk(React(p, s, input, wants))
  {
    match input
    case Data(chunk) =>
      var s1 := s.(buf := s.buf + chunk, received := s.received + chunk);
      MoreText(s.received, s.parsed, s.buf, chunk);
      assert All(s1) == All(s);
      if !s.paused { DrainEnds(p, s1, false, wants); }
    case Close(outcome) =>
      var s1 := s.(closed := Some(if s.cancelled then Cancelled else outcome));
      assert All(s1) == All(s);
      if s.finished {
        if !s1.cancelled && !s1.paused { DrainEnds(p, s1, true, wants); }
      } else {
        CloseEnds(p, s1, wants);
      }
    case Resume => ResumeEnds(p, s, wants);
    case _ =>
  }

  /** Over every run of callbacks and calls, whenever the callback pauses. */
  lemma {:induction false} EndsAlways<E>(p: Parser<E>, steps: seq<Step>)
    requires Possible(p, steps) && p.blank("")
    ensures EndOk(After(p, steps))
  {
    if steps != [] {
      var last := steps[|steps| - 1];
      InvAlways(p, steps[..|steps| - 1]);
      EndsAlways(p, steps[..|steps| - 1]);
      EndReact(p, After(p, steps[..|steps| - 1]), last.input, last.wants);
    }
  }

  // ---- one end, over every continuation ----

  /** One input on a run that is over. */
  lemma OverStays<E>(p: Parser<E>, s: Run<E>, input: Input, wants: Callback)
    requires Inv(p, s) && p.blank("") && Enabled(s, input) && s.finished
    ensures var t := React(p, s, input, wants); t.finished && t.report == s.report && t.cancelled == s.cancelled
  {
    match input
    case Data(chunk) =>
      var s1 := s.(buf := s.buf + chunk, received := s.received + chunk);
      MoreText(s.received, s.parsed, s.buf, chunk);
      assert All(s1) == All(s);
      if !s.paused { DrainEnds(p, s1, false, wants); }
    case Close(outcome) =>
      var s1 := s.(closed := Some(if s.cancelled then Cancelled else outcome));
      assert All(s1) == All(s);
      if !s1.cancelled && !s1.paused { DrainEnds(p, s1, true, wants); }
    case _ => hide Drain;
  }

  /** A run reports once: what it reported it never takes back, whatever comes after. */
  lemma {:induction false} ReportedOnce<E>(p: Parser<E>, steps: seq<Step>, n: nat)
    requires Possible(p, steps) && p.blank("") && n <= |steps| && After(p, steps[..n]).finished
    ensures After(p, steps).finished && After(p, steps).report == After(p, steps[..n]).report
  {
    if n == |steps| {
      assert steps[..n] == steps;
    } else {
      var init, last := steps[..|steps| - 1], steps[|steps| - 1];
      assert init[..n] == steps[..n];
      ReportedOnce(p, init, n);
      InvAlways(p, init);
      OverStays(p, After(p, init), last.input, last.wants);
    }
  }

  /** How the process ended, told from the inputs: as it says, unless the run had been
      cancelled before it closed. */
  ghost function ClosedWith<E>(p: Parser<E>, steps: seq<Step>): Option<Outcome> {
    if steps == [] then None
    else
      var init, input := steps[..|steps| - 1], steps[|steps| - 1].input;
      if input.Close? then Some(if After(p, init).cancelled then Cancelled else input.outcome) else ClosedWith(p, init)
  }

  /** What a run reports that ends with this input: a process that could not be started, a
      cancellation without a process, or how the process ended. */
  ghost function Verdict(input: Input, cancelled: bool, closed: Option<Outcome>): Option<Outcome> {
    match input
    case SpawnError(_) => Some(Failed(None))
    case CancelDone => Some(Cancelled)
    case Close(outcome) => Some(if cancelled then Cancelled else outcome)
    case Resume => closed
    case _ => None
  }

  lemma VerdictStep<E>(p: Parser<E>, s: Run<E>, input: Input, wants: Callback)
    requires Inv(p, s) && p.blank("") && EndOk(s) && Enabled(s, input)
    ensures var t := React(p, s, input, wants);
            && t.closed == (if input.Close? then Some(if s.cancelled then Cancelled else input.outcome) else s.closed)
            && (!s.finished && t.finished ==>
                  t.report.Some? && Verdict(input, s.cancelled, s.closed) == Some(Reported(t.report.value)))
  {
    match input
    case Data(chunk) =>
      var s1 := s.(buf := s.buf + chunk, received := s.received + chunk);
      MoreText(s.received, s.parsed, s.buf, chunk);
      assert All(s1) == All(s);
      if !s.paused { DrainEnds(p, s1, false, wants); }
    case Close(outcome) =>
      var s1 := s.(closed := Some(if s.cancelled then Cancelled else outcome));
      assert All(s1) == All(s);
      if !s1.cancelled && !s1.paused { DrainEnds(p, s1, true, wants); }
    case Resume => ResumeVerdict(p, s, wants);
    case _ => hide Drain;
  }

  lemma ResumeVerdict<E>(p: Parser<E>, s: Run<E>, wants: Callback)
    requires Inv(p, s) && p.blank("")
    ensures var t := ResumeCall(p, s, wants);
            && t.closed == s.closed
            && (!s.finished && t.finished ==> t.report.Some? && s.closed == Some(Reported(t.report.value)))
  {
    if !s.finished && s.paused {
      var s0 := s.(paused := false);
      var s1 := FlushPending(s0, wants);
      assert All(s0) == All(s);
      FlushKeepsAll(s0, wants);
      if !s1.paused {
        DrainStep(p, s1, s1.closed.Some?, wants);
        var s2 := Drain(p, s1, s1.closed.Some?, wants);
        if !s2.paused && s2.closed.Some? && !s2.cancelled {
          assert Inv(p, s2);
          DrainEnds(p, s2, true, wants);
        }
      }
    }
    hide Drain, Faithful, FlushPending;
  }

  lemma {:induction false} ClosedIs<E>(p: Parser<E>, steps: seq<Step>)
    requires Possible(p, steps) && p.blank("")
    ensures After(p, steps).closed == ClosedWith(p, steps)
  {
    if steps != [] {
      var init, last := steps[..|steps| - 1], steps[|steps| - 1];
      ClosedIs(p, init);
      InvAlways(p, init);
      EndsAlways(p, init);
      VerdictStep(p, After(p, init), last.input, last.wants);
      hide Inv, EndOk, React, Verdict;
    }
  }

  /** Over every run, told from the inputs: the outcome reported is that of the input that
      ended the run, for good. */
  lemma WhatIsReported<E>(p: Parser<E>, steps: seq<Step>, n: nat)
    requires Possible(p, steps) && p.blank("") && n < |steps|
    requires !After(p, steps[..n]).finished && After(p, steps[..n + 1]).finished
    ensures var report := After(p, steps).report;
            report.Some? && Some(Reported(report.value))
                            == Verdict(steps[n].input, After(p, steps[..n]).cancelled, ClosedWith(p, steps[..n]))
  {
    var init := steps[..n];
    assert steps[..n + 1][..n] == init;
    PossiblePrefix(p, steps, n + 1);
    InvAlways(p, init);
    EndsAlways(p, init);
    ClosedIs(p, init);
    VerdictStep(p, After(p, init), steps[n].input, steps[n].wants);
    ReportedOnce(p, steps, n + 1);
    hide Inv, EndOk, React, Verdict;
  }

  lemma {:induction false} PossiblePrefix<E>(p: Parser<E>, steps: seq<Step>, n: nat)
    requires Possible(p, steps) && n <= |steps|
    ensures Possible(p, steps[..n]) && (n > 0 ==> Possible(p, steps[..n][..n - 1]))
  {
    if n == |steps| {
      assert steps[..n] == steps;
    } else {
      assert steps[..|steps| - 1][..n] == steps[..n];
      PossiblePrefix(p, steps[..|steps| - 1], n);
    }
  }

  /** Cancelled while its process ran: the process, when it closes, counts as cancelled. */
  ghost predicate CancelledFirst<E>(s: Run<E>) {
    && s.cancelled && (s.closed.Some? ==> s.closed == Some(Cancelled))
    && (s.report.Some? ==> s.report == Some(BySpawnError) || Reported(s.report.value) == Cancelled)
  }

  lemma CancelledFirstStays<E>(p: Parser<E>, s: Run<E>, input: Input, wants: Callback)
    requires Inv(p, s) && EndOk(s) && p.blank("") && Enabled(s, input) && CancelledFirst(s)
    ensures CancelledFirst(React(p, s, input, wants))
  {
    match input
    case Data(chunk) =>
      var s1 := s.(buf := s.buf + chunk, received := s.received + chunk);
      MoreText(s.received, s.parsed, s.buf, chunk);
      assert All(s1) == All(s);
      if !s.paused { DrainEnds(p, s1, false, wants); }
    case Resume => CancelledResume(p, s, wants);
    case _ => hide Drain;
  }

  lemma CancelledResume<E>(p: Parser<E>, s: Run<E>, wants: Callback)
    requires Inv(p, s) && p.blank("") && CancelledFirst(s)
    ensures CancelledFirst(ResumeCall(p, s, wants))
  {
    if !s.finished && s.paused {
      var s0 := s.(paused := false);
      var s1 := FlushPending(s0, wants);
      assert All(s0) == All(s);
      FlushKeepsAll(s0, wants);
      if !s1.paused { DrainEnds(p, s1, s1.closed.Some?, wants); }
    }
    hide Drain, Faithful, FlushPending;
  }

  /** A run cancelled while its process ran and before it was over never reports the
      outcome of the process: in every continuation its report, if any, is "cancelled", or
      that the process could not be started. */
  lemma {:induction false} CancelledFirstNeverSucceeds<E>(p: Parser<E>, steps: seq<Step>, n: nat)
    requires Possible(p, steps) && p.blank("") && n <= |steps|
    requires var s := After(p, steps[..n]); s.cancelled && s.closed.None? && !s.finished
    ensures CancelledFirst(After(p, steps))
  {
    if n == |steps| {
      assert steps[..n] == steps;
      InvAlways(p, steps);
    } else {
      var init, last := steps[..|steps| - 1], steps[|steps| - 1];
      assert init[..n] == steps[..n];
      CancelledFirstNeverSucceeds(p, init, n);
      InvAlways(p, init);
      EndsAlways(p, init);
      CancelledFirstStays(p, After(p, init), last.input, last.wants);
    }
  }

  /** A cancellation that comes after the process closed under a paused run ends nothing:
      the run waits for `resume`, and when that meets no further pause it delivers
      everything and reports the outcome of the process. */
  lemma LateCancelWaitsForResume<E>(p: Parser<E>, s: Run<E>, wants: Callback)
    requires Inv(p, s) && EndOk(s) && p.blank("") && s.closed.Some? && !s.finished
    requires forall n :: !wants(n)
    ensures var c := React(p, s, Cancel, wants);
            var t := React(p, c, Resume, wants);
            && !c.finished && t.finished && t.pending == []
            && t.report.Some? && Reported(t.report.value) == s.closed.value
  {
    var c := React(p, s, Cancel, wants);
    assert All(c) == All(s);
    ResumedWithoutPause(p, c, wants);
  }

  /** Resuming a closed run, with a callback that does not pause, ends it with nothing
      left to deliver. */
  lemma ResumedWithoutPause<E>(p: Parser<E>, s: Run<E>, wants: Callback)
    requires Inv(p, s) && p.blank("") && s.closed.Some? && !s.finished && s.paused
    requires forall n :: !wants(n)
    ensures var t := React(p, s, Resume, wants);
            t.finished && t.pending == [] && t.report.Some? && Reported(t.report.value) == s.closed.value
  {
    var s0 := s.(paused := false);
    var s1 := FlushPending(s0, wants);
    assert All(s0) == All(s);
    FlushKeepsAll(s0, wants);
    FlowsOn(s0, wants);
    DrainFlows(p, s1, true, wants);
    var s2 := Drain(p, s1, true, wants);
    DrainStep(p, s1, true, wants);
    DrainAgain(p, s2, wants);
    hide Drain, FlushPending, Faithful;
  }

  lemma {:induction false} FlowsOn<E>(s: Run<E>, wants: Callback)
    requires !s.paused && forall n :: !wants(n)
    ensures !FlushPending(s, wants).paused
    decreases |s.pending|
  {
    if s.pending != [] { FlowsOn(Deliver(s.(pending := s.pending[1..]), s.pending[0], wants), wants); }
  }

  lemma {:induction false} EmitFlows<E>(s: Run<E>, es: seq<E>, wants: Callback)
    requires !s.paused && forall n :: !wants(n)
    ensures !EmitLines(s, es, wants).paused
  {
    if es != [] { EmitFlows(s, es[..|es| - 1], wants); }
  }

  lemma {:induction false} DrainFlows<E>(p: Parser<E>, s: Run<E>, flush: bool, wants: Callback)
    requires !s.paused && forall n :: !wants(n)
    ensures !Drain(p, s, flush, wants).paused
    decreases |s.buf|
  {
    var i := IndexOf(s.buf);
    if i >= 0 {
      var s1 := s.(buf := s.buf[i + 1..], parsed := s.parsed + [s.buf[..i]]);
      EmitFlows(s1, Parse(p, s.buf[..i]), wants);
      EmitKeepsBuf(s1, Parse(p, s.buf[..i]), wants);
      DrainFlows(p, ParseAndEmit(p, s.(buf := s.buf[i + 1..]), s.buf[..i], wants), flush, wants);
    } else if flush && !p.blank(s.buf) {
      EmitFlows(s.(buf := "", flushed := true, parsed := s.parsed + [s.buf]), Parse(p, s.buf), wants);
    }
  }
}
