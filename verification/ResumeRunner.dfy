/** The resume run over mutable state, as its closures update it: the line buffer, the
    pause buffer and the flags.  Each method is proved to do what `LineStream` says. */
module ResumeRunner {
  import opened Options
  import opened LineStream
  import opened StreamTheorems

  class ResumeRun<E> {
    const parser: Parser<E>
    var stdoutBuf: string
    var pendingEvents: seq<Event<E>>
    var paused: bool
    var finished: bool
    var cancelled: bool
    var closeOutcome: Option<Outcome>

    /** The calls made on the event callbacks, and the one call on the done callbacks. */
    var delivered: seq<Event<E>>
    var report: Option<Report>

    ghost var received: string
    ghost var notes: seq<Event<E>>
    ghost var parsed: seq<string>
    ghost var flushed: bool

    ghost function View(): Run<E>
      reads this
    {
      Run(stdoutBuf, pendingEvents, delivered, paused, finished, cancelled, closeOutcome, report,
          received, notes, parsed, flushed)
    }

    constructor (parser: Parser<E>)
      ensures this.parser == parser && View() == Fresh()
    {
      this.parser := parser;
      stdoutBuf, pendingEvents, delivered := "", [], [];
      paused, finished, cancelled, closeOutcome, report := false, false, false, None, None;
      received, notes, parsed, flushed := "", [], [], false;
    }

    method Pause()
      modifies `paused
      ensures View() == PauseCall(old(View()))
    {
      if finished || paused { return; }
      paused := true;
    }

    method CallBack(e: Event<E>, wants: Callback)
      modifies `delivered, `paused
      ensures View() == Deliver(old(View()), e, wants)
    {
      delivered := delivered + [e];
      if wants(|delivered|) { Pause(); }
    }

    method Emit(e: Event<E>, wants: Callback)
      modifies `pendingEvents, `delivered, `paused
      ensures View() == LineStream.Emit(old(View()), e, wants)
    {
      if paused {
        pendingEvents := pendingEvents + [e];
      } else {
        CallBack(e, wants);
      }
    }

    method FlushPendingEvents(wants: Callback)
      modifies `pendingEvents, `delivered, `paused
      ensures View() == FlushPending(old(View()), wants)
    {
      while !paused && |pendingEvents| > 0
        invariant FlushPending(View(), wants) == FlushPending(old(View()), wants)
        decreases |pendingEvents|
      {
        var e := pendingEvents[0];
        pendingEvents := pendingEvents[1..];
        CallBack(e, wants);
      }
    }

    method ParseAndEmit(line: string, wants: Callback)
      modifies `pendingEvents, `delivered, `paused, `parsed
      ensures View() == LineStream.ParseAndEmit(parser, old(View()), line, wants)
    {
      parsed := parsed + [line];
      if parser.blank(line) { return; }
      var es := parser.events(line);
      ghost var start := View();
      var i := 0;
      while i < |es|
        invariant 0 <= i <= |es| && View() == EmitLines(start, es[..i], wants)
      {
        Emit(Line(es[i]), wants);
        i := i + 1;
        assert es[..i][..i - 1] == es[..i - 1];
      }
      assert es[..i] == es;
    }

    method Drain(flush: bool, wants: Callback)
      modifies `stdoutBuf, `pendingEvents, `delivered, `paused, `parsed, `flushed
      ensures View() == LineStream.Drain(parser, old(View()), flush, wants)
    {
      hide LineStream.Drain, LineStream.ParseAndEmit, IndexOf;
      while true
        invariant LineStream.Drain(parser, View(), flush, wants) == LineStream.Drain(parser, old(View()), flush, wants)
        decreases |stdoutBuf|
      {
        var nl := IndexOf(stdoutBuf);
        DrainTurn(parser, View(), flush, wants);
        if nl < 0 {
          if !flush || parser.blank(stdoutBuf) { break; }
          var tail := stdoutBuf;
          stdoutBuf := "";
          flushed := true;
          ParseAndEmit(tail, wants);
          break;
        }
        var line := stdoutBuf[..nl];
        stdoutBuf := stdoutBuf[nl + 1..];
        ParseAndEmit(line, wants);
      }
    }

    method Finish(r: Report)
      modifies `finished, `report
      ensures View() == LineStream.Finish(old(View()), r)
    {
      if finished { return; }
      finished := true;
      report := Some(r);
    }

    method MaybeFinishClosed(wants: Callback)
      modifies this
      ensures View() == LineStream.MaybeFinishClosed(parser, old(View()), wants)
    {
      if closeOutcome.None? { return; }
      if cancelled {
        Finish(ByCancelledClose(closeOutcome.value));
        return;
      }
      if paused { return; }
      var outcome := closeOutcome.value;
      Drain(true, wants);
      Finish(ByClose(outcome));
    }

    method Resume(wants: Callback)
      modifies this
      ensures View() == ResumeCall(parser, old(View()), wants)
    {
      hide LineStream.Drain, FlushPending;
      if finished || !paused { return; }
      paused := false;
      FlushPendingEvents(wants);
      if paused { return; }
      Drain(closeOutcome.Some?, wants);
      if paused { return; }
      MaybeFinishClosed(wants);
    }

    method OnData(chunk: string, wants: Callback)
      modifies this
      ensures View() == React(parser, old(View()), Data(chunk), wants)
    {
      hide LineStream.Drain, LineStream.Emit, ResumeCall;
      stdoutBuf := stdoutBuf + chunk;
      received := received + chunk;
      if !paused { Drain(false, wants); }
    }

    method OnStderr(text: string, wants: Callback)
      modifies this
      ensures View() == React(parser, old(View()), Stderr(text), wants)
    {
      notes := notes + [StderrChunk(text)];
      Emit(StderrChunk(text), wants);
    }

    method OnSpawnError(text: string, wants: Callback)
      modifies this
      ensures View() == React(parser, old(View()), SpawnError(text), wants)
    {
      notes := notes + [EngineError(text)];
      Emit(EngineError(text), wants);
      Finish(BySpawnError);
    }

    method OnClose(outcome: Outcome, wants: Callback)
      modifies this
      ensures View() == React(parser, old(View()), Close(outcome), wants)
    {
      closeOutcome := Some(if cancelled then Cancelled else outcome);
      MaybeFinishClosed(wants);
    }

    method Cancel(wants: Callback)
      modifies `cancelled
      ensures View() == React(parser, old(View()), Input.Cancel, wants)
    {
      if finished { return; }
      cancelled := true;
    }

    method CancelWithoutProcess(wants: Callback)
      modifies this
      ensures View() == React(parser, old(View()), CancelDone, wants)
    {
      Finish(ByCancel);
    }
  }
}
