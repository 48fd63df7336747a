/** Streaming refines batch parsing: however the output is cut into chunks and whenever
    the run is paused and resumed, also from inside the event callback. */
module StreamTheorems {
  import opened Options
  import opened LineStream

  // ---- text ----

  lemma IndexOfConcat(a: string, b: string)
    ensures IndexOf(a) >= 0 ==> IndexOf(a + b) == IndexOf(a)
  {
    var i, j := IndexOf(a), IndexOf(a + b);
    if i >= 0 {
      assert (a + b)[i] == '\n';
      assert forall k :: 0 <= k < i ==> (a + b)[k] != '\n';
    }
  }

  /** Lines can be split off as text arrives: only the unfinished rest matters. */
  lemma {:induction false} LinesConcat(a: string, b: string)
    ensures Lines(a + b) == Lines(a) + Lines(Rest(a) + b)
    ensures Rest(a + b) == Rest(Rest(a) + b)
    decreases |a|
  {
    var i := IndexOf(a);
    FirstLine(a);
    FirstLine(a + b);
    hide Lines, Rest, IndexOf;
    if i >= 0 {
      IndexOfConcat(a, b);
      assert (a + b)[..i] == a[..i] && (a + b)[i + 1..] == a[i + 1..] + b;
      LinesConcat(a[i + 1..], b);
    }
  }

  /** Each line with its newline, one after the other. */
  function Ended(lines: seq<string>): string {
    if lines == [] then "" else lines[0] + "\n" + Ended(lines[1..])
  }

  /** The one way to see a text as complete lines and a rest. */
  ghost predicate IsSplit(t: string, lines: seq<string>, rest: string) {
    && t == Ended(lines) + rest && '\n' !in rest
    && forall i :: 0 <= i < |lines| ==> '\n' !in lines[i]
  }

  lemma {:induction false} SplitIff(t: string, lines: seq<string>, rest: string)
    ensures IsSplit(t, lines, rest) <==> lines == Lines(t) && rest == Rest(t)
    decreases |t|
  {
    hide Lines, Rest, IndexOf;
    FirstLine(t);
    var i := IndexOf(t);
    IndexFacts(t);
    if i < 0 {
      HasNewline(t, lines, rest);
    } else {
      var more := t[i + 1..];
      assert t == t[..i] + "\n" + more;
      SplitIff(more, Lines(more), Rest(more));
      SplitJoin(t[..i], more, Lines(more), Rest(more));
      if IsSplit(t, lines, rest) {
        SplitHead(t, lines, rest, i);
        SplitIff(more, lines[1..], rest);
      }
    }
  }

  lemma IndexFacts(t: string)
    ensures -1 <= IndexOf(t) < |t|
    ensures IndexOf(t) < 0 <==> '\n' !in t
    ensures IndexOf(t) >= 0 ==> t[IndexOf(t)] == '\n' && '\n' !in t[..IndexOf(t)]
  {
  }

  lemma HasNewline(t: string, lines: seq<string>, rest: string)
    ensures IsSplit(t, lines, rest) && lines != [] ==> '\n' in t
  {
    if IsSplit(t, lines, rest) && lines != [] { assert t[|lines[0]|] == '\n'; }
  }

  lemma SplitJoin(line: string, more: string, lines: seq<string>, rest: string)
    requires IsSplit(more, lines, rest) && '\n' !in line
    ensures IsSplit(line + "\n" + more, [line] + lines, rest)
  {
    assert ([line] + lines)[1..] == lines;
    assert line + "\n" + (Ended(lines) + rest) == (line + "\n" + Ended(lines)) + rest;
  }

  lemma SplitHead(t: string, lines: seq<string>, rest: string, i: nat)
    requires IsSplit(t, lines, rest) && i < |t| && t[i] == '\n' && '\n' !in t[..i]
    ensures lines != [] && lines[0] == t[..i] && IsSplit(t[i + 1..], lines[1..], rest)
  {
    assert Ended([]) + rest == rest;
    var k := |lines[0]|;
    assert t == lines[0] + "\n" + (Ended(lines[1..]) + rest);
    assert t[k] == '\n' && t[..k] == lines[0];
    NotBefore(t, i, k);
    NotBefore(t, k, i);
    assert t[i + 1..] == Ended(lines[1..]) + rest;
  }

  lemma NotBefore(t: string, i: nat, k: nat)
    requires i < |t| && '\n' !in t[..i] && k < |t| && t[k] == '\n'
    ensures k >= i
  {
    assert forall j :: 0 <= j < i ==> t[j] == t[..i][j];
  }

  // ---- batch parsing ----

  /** One after the other. */
  function Joined<E>(parts: seq<seq<E>>): seq<E> {
    if parts == [] then [] else Joined(parts[..|parts| - 1]) + parts[|parts| - 1]
  }

  /** The batch parse: the events of every line that is not blank, in order. */
  function Batch<E>(p: Parser<E>, lines: seq<string>): seq<E> {
    Joined(seq(|lines|, i requires 0 <= i < |lines| => if p.blank(lines[i]) then [] else p.events(lines[i])))
  }

  lemma BatchSnoc<E>(p: Parser<E>, lines: seq<string>, line: string)
    ensures Batch(p, lines + [line]) == Batch(p, lines) + Parse(p, line)
  {
    var all := lines + [line];
    var parts := seq(|all|, i requires 0 <= i < |all| => if p.blank(all[i]) then [] else p.events(all[i]));
    var init := seq(|lines|, i requires 0 <= i < |lines| => if p.blank(lines[i]) then [] else p.events(lines[i]));
    assert parts[..|parts| - 1] == init;
    assert parts[|parts| - 1] == Parse(p, line);
  }

  lemma BatchNone<E>(p: Parser<E>)
    ensures Batch(p, []) == []
  {
  }

  lemma {:induction false} BatchConcat<E>(p: Parser<E>, a: seq<string>, b: seq<string>)
    ensures Batch(p, a + b) == Batch(p, a) + Batch(p, b)
  {
    hide Batch, Parse;
    if b == [] {
      BatchNone(p);
      assert a + b == a;
    } else {
      var init, last := b[..|b| - 1], b[|b| - 1];
      BatchConcat(p, a, init);
      assert a + b == (a + init) + [last] && b == init + [last];
      BatchSnoc(p, a + init, last);
      BatchSnoc(p, init, last);
      assert (Batch(p, a) + Batch(p, init)) + Parse(p, last) == Batch(p, a) + (Batch(p, init) + Parse(p, last));
    }
  }

  // ---- what has been produced ----

  function Output<E>(es: seq<Event<E>>): seq<E> {
    if es == [] then []
    else
      var init, last := Output(es[..|es| - 1]), es[|es| - 1];
      if last.Line? then init + [last.event] else init
  }

  /** What did not come from standard output. */
  function Notes<E>(es: seq<Event<E>>): seq<Event<E>> {
    if es == [] then []
    else
      var init, last := Notes(es[..|es| - 1]), es[|es| - 1];
      if last.Line? then init else init + [last]
  }

  /** Delivered, then waiting. */
  function All<E>(s: Run<E>): seq<Event<E>> {
    s.delivered + s.pending
  }

  lemma Snoc<E>(es: seq<Event<E>>, e: Event<E>)
    ensures Output(es + [e]) == if e.Line? then Output(es) + [e.event] else Output(es)
    ensures Notes(es + [e]) == if e.Line? then Notes(es) else Notes(es) + [e]
  {
    assert (es + [e])[..|es|] == es;
  }

  /** Nothing waits while the run is not paused. */
  ghost predicate Settled<E>(s: Run<E>) {
    !s.paused ==> s.pending == []
  }

  lemma EmitOne<E>(s: Run<E>, e: Event<E>, wants: Callback)
    requires Settled(s)
    ensures Settled(Emit(s, e, wants)) && All(Emit(s, e, wants)) == All(s) + [e]
  {
  }

  lemma {:induction false} EmitMany<E>(s: Run<E>, es: seq<E>, wants: Callback)
    requires Settled(s)
    ensures var t := EmitLines(s, es, wants);
            Settled(t) && Output(All(t)) == Output(All(s)) + es && Notes(All(t)) == Notes(All(s))
  {
    hide Output, Notes, Emit;
    if es != [] {
      var init, last := es[..|es| - 1], es[|es| - 1];
      var t := EmitLines(s, init, wants);
      EmitMany(s, init, wants);
      EmitOne(t, Line(last), wants);
      Snoc(All(t), Line(last));
      assert es == init + [last];
    }
  }

  lemma {:induction false} FlushKeepsAll<E>(s: Run<E>, wants: Callback)
    ensures var t := FlushPending(s, wants);
            && (t.paused || t.pending == []) && All(t) == All(s)
            && t == s.(delivered := t.delivered, pending := t.pending, paused := t.paused)
    decreases |s.pending|
  {
    if !s.paused && s.pending != [] {
      var u := Deliver(s.(pending := s.pending[1..]), s.pending[0], wants);
      assert All(u) == All(s) by { assert s.pending == [s.pending[0]] + s.pending[1..]; }
      FlushKeepsAll(u, wants);
    }
  }

  /** The lines parsed so far are the lines received so far, but for those still in the
      buffer; their events are exactly what was delivered or waits. */
  ghost predicate Faithful<E>(p: Parser<E>, s: Run<E>) {
    && Output(All(s)) == Batch(p, s.parsed)
    && Notes(All(s)) == s.notes
    && (if s.flushed then s.parsed == Lines(s.received) + [Rest(s.received)] && s.buf == "" && !p.blank(Rest(s.received))
        else Lines(s.received) == s.parsed + Lines(s.buf) && Rest(s.received) == Rest(s.buf))
  }

  lemma ParseStep<E>(p: Parser<E>, s: Run<E>, line: string, wants: Callback)
    requires Settled(s) && Output(All(s)) == Batch(p, s.parsed)
    ensures var t := ParseAndEmit(p, s, line, wants);
            && Settled(t) && Output(All(t)) == Batch(p, t.parsed) && Notes(All(t)) == Notes(All(s))
            && t == s.(delivered := t.delivered, pending := t.pending, paused := t.paused, parsed := s.parsed + [line])
  {
    var s1 := s.(parsed := s.parsed + [line]);
    assert All(s1) == All(s);
    EmitMany(s1, Parse(p, line), wants);
    EmitKeepsBuf(s1, Parse(p, line), wants);
    BatchSnoc(p, s.parsed, line);
  }

  lemma {:induction false} DrainStep<E>(p: Parser<E>, s: Run<E>, flush: bool, wants: Callback)
    requires Settled(s) && Faithful(p, s) && p.blank("")
    ensures var t := Drain(p, s, flush, wants);
            && Settled(t) && Faithful(p, t) && Lines(t.buf) == []
            && (flush ==> t.flushed || p.blank(Rest(t.received)))
            && (t.flushed ==> s.flushed || flush)
            && t == s.(delivered := t.delivered, pending := t.pending, paused := t.paused,
                       parsed := t.parsed, buf := t.buf, flushed := t.flushed)
    decreases |s.buf|
  {
    hide Output, Notes, Batch, ParseAndEmit, Lines, Rest;
    FirstLine(s.buf);
    FirstLine("");
    var i := IndexOf(s.buf);
    if i >= 0 {
      var line, s1 := s.buf[..i], s.(buf := s.buf[i + 1..]);
      assert All(s1) == All(s);
      ParseStep(p, s1, line, wants);
      var t := ParseAndEmit(p, s1, line, wants);
      assert s.parsed + Lines(s.buf) == t.parsed + Lines(t.buf);
      DrainStep(p, t, flush, wants);
    } else if flush && !p.blank(s.buf) {
      var s1 := s.(buf := "", flushed := true);
      assert All(s1) == All(s);
      ParseStep(p, s1, s.buf, wants);
    }
  }

  lemma FirstLine(t: string)
    ensures IndexOf(t) < 0 ==> Lines(t) == [] && Rest(t) == t
    ensures var i := IndexOf(t); i >= 0 ==> Lines(t) == [t[..i]] + Lines(t[i + 1..]) && Rest(t) == Rest(t[i + 1..])
  {
  }

  // ---- whole runs ----

  ghost predicate Inv<E>(p: Parser<E>, s: Run<E>) {
    && Settled(s) && Faithful(p, s)
    && (!s.paused ==> Lines(s.buf) == [])
    && (s.flushed ==> s.closed.Some?)
    && (s.finished <==> s.report.Some?)
    && (s.report.Some? && s.report.value.ByClose? ==>
          && s.closed.Some? && Lines(s.buf) == []
          && (s.flushed || (p.blank(Rest(s.received)) && s.pending == [])))
  }

  lemma InvFresh<E>(p: Parser<E>)
    ensures Inv(p, Fresh<E>())
  {
  }

  lemma DataStep<E>(p: Parser<E>, s: Run<E>, chunk: string, wants: Callback)
    requires Inv(p, s) && p.blank("") && s.closed.None?
    ensures Inv(p, React(p, s, Data(chunk), wants))
  {
    hide Output, Notes, Batch, Lines, Rest, Drain;
    var s1 := s.(buf := s.buf + chunk, received := s.received + chunk);
    MoreText(s.received, s.parsed, s.buf, chunk);
    assert All(s1) == All(s);
    if !s.paused { DrainStep(p, s1, false, wants); }
  }

  lemma MoreText(received: string, parsed: seq<string>, buf: string, chunk: string)
    requires Lines(received) == parsed + Lines(buf) && Rest(received) == Rest(buf)
    ensures Lines(received + chunk) == parsed + Lines(buf + chunk) && Rest(received + chunk) == Rest(buf + chunk)
  {
    hide Lines, Rest;
    LinesConcat(received, chunk);
    LinesConcat(buf, chunk);
    var more := Lines(Rest(buf) + chunk);
    assert (parsed + Lines(buf)) + more == parsed + (Lines(buf) + more);
  }

  lemma CloseStep<E>(p: Parser<E>, s: Run<E>, wants: Callback)
    requires Inv(p, s) && p.blank("")
    ensures Inv(p, MaybeFinishClosed(p, s, wants))
  {
    if s.closed.Some? && !s.cancelled && !s.paused {
      DrainStep(p, s, true, wants);
    }
  }

  lemma ResumeStep<E>(p: Parser<E>, s: Run<E>, wants: Callback)
    requires Inv(p, s) && p.blank("")
    ensures Inv(p, ResumeCall(p, s, wants))
    ensures ResumeCall(p, s, wants).finished && !s.finished ==> ResumeCall(p, s, wants).pending == []
  {
    if !s.finished && s.paused {
      var s0 := s.(paused := false);
      var s1 := FlushPending(s0, wants);
      assert All(s0) == All(s);
      FlushKeepsAll(s0, wants);
      if !s1.paused {
        var s2 := Drain(p, s1, s1.closed.Some?, wants);
        DrainStep(p, s1, s1.closed.Some?, wants);
        if !s2.paused {
          CloseStep(p, s2, wants);
          if s1.closed.Some? { DrainAgain(p, s2, wants); }
        }
      }
    }
  }

  /** A drained run has nothing more to drain. */
  lemma DrainAgain<E>(p: Parser<E>, s: Run<E>, wants: Callback)
    requires Faithful(p, s) && Lines(s.buf) == [] && p.blank("") && (s.flushed || p.blank(Rest(s.received)))
    ensures Drain(p, s, true, wants) == s
  {
  }

  lemma StderrStep<E>(p: Parser<E>, s: Run<E>, text: string, wants: Callback)
    requires Inv(p, s) && s.closed.None?
    ensures Inv(p, React(p, s, Stderr(text), wants))
  {
    hide Output, Notes, Batch, Lines, Rest;
    var s1 := s.(notes := s.notes + [StderrChunk(text)]);
    assert All(s1) == All(s);
    EmitOne(s1, StderrChunk(text), wants);
    Snoc(All(s1), StderrChunk(text));
  }

  lemma SpawnErrorStep<E>(p: Parser<E>, s: Run<E>, text: string, wants: Callback)
    requires Inv(p, s) && s.closed.None?
    ensures Inv(p, React(p, s, SpawnError(text), wants))
  {
    hide Output, Notes, Batch, Lines, Rest;
    var s1 := s.(notes := s.notes + [EngineError(text)]);
    assert All(s1) == All(s);
    EmitOne(s1, EngineError(text), wants);
    Snoc(All(s1), EngineError(text));
    var t := Emit(s1, EngineError(text), wants);
    assert All(Finish(t, BySpawnError)) == All(t);
  }

  /** Every callback of the process, and every call of the caller, keeps the invariant. */
  lemma InvReact<E>(p: Parser<E>, s: Run<E>, input: Input, wants: Callback)
    requires Inv(p, s) && Enabled(s, input) && p.blank("")
    ensures Inv(p, React(p, s, input, wants))
  {
    hide Emit, Drain, ResumeCall, MaybeFinishClosed, Output, Notes, Batch, Lines, Rest;
    match input
    case Data(chunk) => DataStep(p, s, chunk, wants);
    case Stderr(text) => StderrStep(p, s, text, wants);
    case SpawnError(text) => SpawnErrorStep(p, s, text, wants);
    case Close(outcome) =>
      var s1 := s.(closed := Some(if s.cancelled then Cancelled else outcome));
      assert All(s1) == All(s);
      CloseStep(p, s1, wants);
    case Pause => assert All(PauseCall(s)) == All(s);
    case Resume => ResumeStep(p, s, wants);
    case Cancel => assert All(s.(cancelled := true)) == All(s);
    case CancelDone => assert All(Finish(s, ByCancel)) == All(s);
  }

  /** An input together with what the callback decides while it is handled. */
  datatype Step = Step(input: Input, wants: Callback)

  ghost predicate Possible<E>(p: Parser<E>, steps: seq<Step>) {
    steps == [] ||
    (Possible(p, steps[..|steps| - 1]) && Enabled(After(p, steps[..|steps| - 1]), steps[|steps| - 1].input))
  }

  ghost function After<E>(p: Parser<E>, steps: seq<Step>): Run<E> {
    if steps == [] then Fresh()
    else React(p, After(p, steps[..|steps| - 1]), steps[|steps| - 1].input, steps[|steps| - 1].wants)
  }

  lemma {:induction false} InvAlways<E>(p: Parser<E>, steps: seq<Step>)
    requires Possible(p, steps) && p.blank("")
    ensures Inv(p, After(p, steps))
  {
    if steps == [] {
      InvFresh(p);
    } else {
      var last := steps[|steps| - 1];
      InvAlways(p, steps[..|steps| - 1]);
      InvReact(p, After(p, steps[..|steps| - 1]), last.input, last.wants);
    }
  }

  // ---- in terms of the inputs alone ----

  /** What the process wrote to its standard output. */
  function TextOf(steps: seq<Step>): string {
    if steps == [] then ""
    else
      var init, last := TextOf(steps[..|steps| - 1]), steps[|steps| - 1].input;
      if last.Data? then init + last.chunk else init
  }

  /** Error chunks and failures to start, as they came. */
  function NotesOf<E>(steps: seq<Step>): seq<Event<E>> {
    if steps == [] then []
    else
      var init, last := NotesOf<E>(steps[..|steps| - 1]), steps[|steps| - 1].input;
      if last.Stderr? then init + [StderrChunk(last.text)]
      else if last.SpawnError? then init + [EngineError(last.text)]
      else init
  }

  lemma {:induction false} FlushKeepsHistory<E>(s: Run<E>, wants: Callback)
    ensures var t := FlushPending(s, wants); t.received == s.received && t.notes == s.notes
    decreases |s.pending|
  {
    if !s.paused && s.pending != [] {
      FlushKeepsHistory(Deliver(s.(pending := s.pending[1..]), s.pending[0], wants), wants);
    }
  }

  lemma {:induction false} DrainKeepsHistory<E>(p: Parser<E>, s: Run<E>, flush: bool, wants: Callback)
    ensures var t := Drain(p, s, flush, wants); t.received == s.received && t.notes == s.notes
    decreases |s.buf|
  {
    hide EmitLines;
    var i := IndexOf(s.buf);
    if i >= 0 {
      var s1 := s.(buf := s.buf[i + 1..], parsed := s.parsed + [s.buf[..i]]);
      EmitKeepsBuf(s1, Parse(p, s.buf[..i]), wants);
      DrainKeepsHistory(p, ParseAndEmit(p, s.(buf := s.buf[i + 1..]), s.buf[..i], wants), flush, wants);
    } else if flush && !p.blank(s.buf) {
      EmitKeepsBuf(s.(buf := "", flushed := true, parsed := s.parsed + [s.buf]), Parse(p, s.buf), wants);
    }
  }

  lemma CloseKeepsHistory<E>(p: Parser<E>, s: Run<E>, wants: Callback)
    ensures var t := MaybeFinishClosed(p, s, wants); t.received == s.received && t.notes == s.notes
  {
    DrainKeepsHistory(p, s, true, wants);
    hide Drain;
  }

  lemma ResumeKeepsHistory<E>(p: Parser<E>, s: Run<E>, wants: Callback)
    ensures var t := ResumeCall(p, s, wants); t.received == s.received && t.notes == s.notes
  {
    hide Drain, FlushPending, MaybeFinishClosed;
    var s1 := FlushPending(s.(paused := false), wants);
    var s2 := Drain(p, s1, s1.closed.Some?, wants);
    FlushKeepsHistory(s.(paused := false), wants);
    DrainKeepsHistory(p, s1, s1.closed.Some?, wants);
    CloseKeepsHistory(p, s2, wants);
  }

  lemma ReactHistory<E>(p: Parser<E>, s: Run<E>, input: Input, wants: Callback)
    ensures var t := React(p, s, input, wants);
            && t.received == (if input.Data? then s.received + input.chunk else s.received)
            && t.notes == (match input
                           case Stderr(text) => s.notes + [StderrChunk(text)]
                           case SpawnError(text) => s.notes + [EngineError(text)]
                           case _ => s.notes)
  {
    hide Drain, ResumeCall, MaybeFinishClosed;
    match input
    case Data(chunk) => DrainKeepsHistory(p, s.(buf := s.buf + chunk, received := s.received + chunk), false, wants);
    case Close(outcome) => CloseKeepsHistory(p, s.(closed := Some(if s.cancelled then Cancelled else outcome)), wants);
    case Resume => ResumeKeepsHistory(p, s, wants);
    case _ =>
  }

  lemma {:induction false} HistoryIs<E>(p: Parser<E>, steps: seq<Step>)
    ensures After(p, steps).received == TextOf(steps) && After(p, steps).notes == NotesOf(steps)
  {
    hide React;
    if steps != [] {
      var init, last := steps[..|steps| - 1], steps[|steps| - 1];
      HistoryIs(p, init);
      ReactHistory(p, After(p, init), last.input, last.wants);
    }
  }

  /** Over every run: what was delivered, what waits, and what the buffered lines stand
      for are together the batch parse of all complete lines of the output; once an
      unterminated last line has been parsed too, it is among them. Error chunks come out
      as they came. */
  lemma StreamingRefinesBatch<E>(p: Parser<E>, steps: seq<Step>, lines: seq<string>, rest: string, owed: seq<string>, tail: string)
    requires Possible(p, steps) && p.blank("")
    requires IsSplit(TextOf(steps), lines, rest) && IsSplit(After(p, steps).buf, owed, tail)
    ensures var s := After(p, steps);
            !s.flushed ==> Output(s.delivered + s.pending) + Batch(p, owed) == Batch(p, lines) && tail == rest
    ensures var s := After(p, steps);
            s.flushed ==> Output(s.delivered + s.pending) == Batch(p, lines + [rest]) && s.buf == "" && s.closed.Some?
    ensures var s := After(p, steps); !s.paused ==> s.pending == [] && owed == []
    ensures var s := After(p, steps); Notes(s.delivered + s.pending) == NotesOf(steps)
  {
    hide Possible, After, Output, Notes, Batch, Lines, Rest, IsSplit, TextOf, NotesOf;
    InvAlways(p, steps);
    HistoryIs(p, steps);
    var s := After(p, steps);
    SplitIff(TextOf(steps), lines, rest);
    SplitIff(s.buf, owed, tail);
    BatchConcat(p, s.parsed, Lines(s.buf));
  }

  /** A run that ends by itself after output that ends in a newline (or in blanks) has
      delivered all of it, in order. */
  lemma FinishDeliversAll<E>(p: Parser<E>, steps: seq<Step>, lines: seq<string>, rest: string)
    requires Possible(p, steps) && p.blank("")
    requires IsSplit(TextOf(steps), lines, rest) && p.blank(rest)
    requires var s := After(p, steps); s.report.Some? && s.report.value.ByClose?
    ensures var s := After(p, steps); s.pending == [] && Output(s.delivered) == Batch(p, lines)
  {
    hide Output, Notes, Batch, Lines, Rest, Possible, After, IsSplit, TextOf;
    InvAlways(p, steps);
    HistoryIs(p, steps);
    var s := After(p, steps);
    SplitIff(TextOf(steps), lines, rest);
    assert s.delivered + [] == s.delivered && s.parsed + [] == s.parsed;
  }

  // ---- order ----

  lemma {:induction false} EmitLinesAppend<E>(s: Run<E>, es: seq<E>, wants: Callback)
    requires Settled(s)
    ensures Settled(EmitLines(s, es, wants)) && All(s) <= All(EmitLines(s, es, wants))
  {
    if es != [] {
      EmitLinesAppend(s, es[..|es| - 1], wants);
      EmitOne(EmitLines(s, es[..|es| - 1], wants), Line(es[|es| - 1]), wants);
    }
  }

  lemma {:induction false} DrainAppends<E>(p: Parser<E>, s: Run<E>, flush: bool, wants: Callback)
    requires Settled(s)
    ensures Settled(Drain(p, s, flush, wants)) && All(s) <= All(Drain(p, s, flush, wants))
    decreases |s.buf|
  {
    hide EmitLines;
    var i := IndexOf(s.buf);
    if i >= 0 {
      var s1 := s.(buf := s.buf[i + 1..], parsed := s.parsed + [s.buf[..i]]);
      EmitLinesAppend(s1, Parse(p, s.buf[..i]), wants);
      EmitKeepsBuf(s1, Parse(p, s.buf[..i]), wants);
      DrainAppends(p, ParseAndEmit(p, s.(buf := s.buf[i + 1..]), s.buf[..i], wants), flush, wants);
    } else if flush && !p.blank(s.buf) {
      EmitLinesAppend(s.(buf := "", flushed := true, parsed := s.parsed + [s.buf]), Parse(p, s.buf), wants);
    }
  }

  lemma CloseAppends<E>(p: Parser<E>, s: Run<E>, wants: Callback)
    requires Settled(s)
    ensures Settled(MaybeFinishClosed(p, s, wants)) && All(s) <= All(MaybeFinishClosed(p, s, wants))
  {
    DrainAppends(p, s, true, wants);
    hide Drain;
  }

  /** Nothing overtakes: what was delivered or waits stays in its place, and whatever comes
      next comes after it; an error chunk takes the next place. */
  lemma NothingOvertakes<E>(p: Parser<E>, s: Run<E>, input: Input, wants: Callback)
    requires Settled(s)
    ensures var t := React(p, s, input, wants); Settled(t) && All(s) <= All(t)
    ensures input.Stderr? ==> All(React(p, s, input, wants)) == All(s) + [StderrChunk(input.text)]
    ensures input.SpawnError? ==> All(React(p, s, input, wants)) == All(s) + [EngineError(input.text)]
  {
    hide Drain, FlushPending, MaybeFinishClosed, ResumeCall, EmitLines;
    match input
    case Data(chunk) => DataAppends(p, s, chunk, wants);
    case Close(outcome) =>
      var s1 := s.(closed := Some(if s.cancelled then Cancelled else outcome));
      assert All(s1) == All(s);
      CloseAppends(p, s1, wants);
    case Resume => ResumeAppends(p, s, wants);
    case Stderr(text) => NoteAppends(s, StderrChunk(text), wants);
    case SpawnError(text) => NoteAppends(s, EngineError(text), wants);
    case _ =>
  }

  lemma NoteAppends<E>(s: Run<E>, e: Event<E>, wants: Callback)
    requires Settled(s)
    ensures var t := Emit(s.(notes := s.notes + [e]), e, wants); Settled(t) && All(t) == All(s) + [e]
  {
    EmitOne(s.(notes := s.notes + [e]), e, wants);
  }

  lemma DataAppends<E>(p: Parser<E>, s: Run<E>, chunk: string, wants: Callback)
    requires Settled(s)
    ensures var t := React(p, s, Data(chunk), wants); Settled(t) && All(s) <= All(t)
  {
    hide Drain, ResumeCall, MaybeFinishClosed, Emit;
    var s1 := s.(buf := s.buf + chunk, received := s.received + chunk);
    assert All(s1) == All(s);
    if !s.paused { DrainAppends(p, s1, false, wants); }
  }

  lemma ResumeAppends<E>(p: Parser<E>, s: Run<E>, wants: Callback)
    requires Settled(s)
    ensures Settled(ResumeCall(p, s, wants)) && All(s) <= All(ResumeCall(p, s, wants))
  {
    hide Drain, MaybeFinishClosed, FlushPending;
    var s0 := s.(paused := false);
    assert All(s0) == All(s);
    FlushKeepsAll(s0, wants);
    var s1 := FlushPending(s0, wants);
    var s2 := Drain(p, s1, s1.closed.Some?, wants);
    if !s1.paused {
      DrainAppends(p, s1, s1.closed.Some?, wants);
      if !s2.paused { CloseAppends(p, s2, wants); }
    }
  }

  // ---- the one way to lose events ----

  /** The callback pauses on one of the `n` events after the first `from`. */
  ghost predicate PausesWithin(wants: Callback, from: nat, n: int) {
    exists m: nat :: from < m <= from + n && wants(m)
  }

  lemma PausesWithinSnoc(wants: Callback, from: nat, n: nat)
    ensures PausesWithin(wants, from, n + 1) <==> PausesWithin(wants, from, n) || wants(from + n + 1)
  {
  }

  lemma {:induction false} EmitPauses<E>(s: Run<E>, es: seq<E>, wants: Callback)
    requires !s.paused && s.pending == [] && !s.finished
    ensures var t := EmitLines(s, es, wants);
            && (t.paused <==> PausesWithin(wants, |s.delivered|, |es|))
            && (t.pending != [] <==> PausesWithin(wants, |s.delivered|, |es| - 1))
            && (!t.paused ==> t.pending == [] && |t.delivered| == |s.delivered| + |es|)
  {
    hide PausesWithin;
    if es == [] {
      assert !PausesWithin(wants, |s.delivered|, 0) && !PausesWithin(wants, |s.delivered|, -1) by { NoPauses(wants, |s.delivered|); }
    } else {
      EmitPauses(s, es[..|es| - 1], wants);
      EmitKeepsBuf(s, es[..|es| - 1], wants);
      PausesWithinSnoc(wants, |s.delivered|, |es| - 1);
    }
  }

  lemma NoPauses(wants: Callback, from: nat)
    ensures !PausesWithin(wants, from, 0) && !PausesWithin(wants, from, -1)
  {
  }

  /** When the process closes while the run flows, the run finishes at once.  Then events
      of an unterminated last line are left undelivered exactly when the callback pauses
      on one of them that is not the last. */
  lemma CloseLosesIff<E>(p: Parser<E>, s: Run<E>, outcome: Outcome, wants: Callback)
    requires Inv(p, s) && p.blank("") && s.closed.None? && !s.paused && !s.cancelled && !s.finished
    ensures var t := React(p, s, Close(outcome), wants);
            && t.report == Some(ByClose(outcome))
            && (t.pending != [] <==> !p.blank(s.buf) && PausesWithin(wants, |s.delivered|, |p.events(s.buf)| - 1))
  {
    FirstLine(s.buf);
    var s1 := s.(closed := Some(outcome));
    var s2 := s1.(buf := "", flushed := true, parsed := s.parsed + [s.buf]);
    EmitPauses(s2, Parse(p, s.buf), wants);
    EmitKeepsBuf(s2, Parse(p, s.buf), wants);
    hide Output, Notes, Batch, Lines, Rest, PausesWithin, Faithful, EmitLines;
  }

  /** What waits when a run has finished is never delivered. */
  lemma NothingAfterFinishWhilePaused<E>(p: Parser<E>, s: Run<E>, input: Input, wants: Callback)
    requires s.finished && s.paused
    ensures var t := React(p, s, input, wants); t.delivered == s.delivered && t.finished && t.paused && t.report == s.report
  {
  }

  /** A run that finishes from `resume` has nothing waiting, whatever the tail was. */
  lemma ResumedFinishLosesNothing<E>(p: Parser<E>, s: Run<E>, wants: Callback)
    requires Inv(p, s) && p.blank("") && !s.finished && React(p, s, Resume, wants).finished
    ensures var t := React(p, s, Resume, wants);
            t.pending == [] && Output(t.delivered) == Batch(p, t.parsed)
  {
    ResumeStep(p, s, wants);
    var t := React(p, s, Resume, wants);
    hide Output, Notes, Batch, ResumeCall;
    assert t.delivered + [] == t.delivered;
  }
}
