/** A resume run as functions on values: incremental line splitting, the pause buffer
    and the ways a run ends. */
module LineStream {
  import opened Options

  /** One event of the run; only the first kind comes from standard output. */
  datatype Event<E> = Line(event: E) | StderrChunk(text: string) | EngineError(text: string)

  datatype Outcome = Success | Failed(code: Option<int>) | Cancelled

  /** Why a run reported its end: its process closed while it flowed, or after it had been
      cancelled; the process could not be started; or there was none to cancel. */
  datatype Report = ByClose(outcome: Outcome) | ByCancelledClose(outcome: Outcome) | BySpawnError | ByCancel

  function Reported(r: Report): Outcome {
    match r
    case ByClose(outcome) => outcome
    case ByCancelledClose(outcome) => outcome
    case BySpawnError => Failed(None)
    case ByCancel => Cancelled
  }

  /** `blank` is "nothing left after trimming"; `events` turns a line that is not blank
      into the events it stands for (none for a line that does not parse). */
  datatype Parser<!E> = Parser(blank: string -> bool, events: string -> seq<E>)

  function Parse<E>(p: Parser<E>, line: string): seq<E> {
    if p.blank(line) then [] else p.events(line)
  }

  // ---- batch parsing ----

  function IndexOf(t: string): (i: int)
    ensures -1 <= i < |t|
    ensures i >= 0 ==> t[i] == '\n' && forall j :: 0 <= j < i ==> t[j] != '\n'
    ensures i < 0 ==> forall j :: 0 <= j < |t| ==> t[j] != '\n'
  {
    if t == "" then -1
    else if t[0] == '\n' then 0
    else
      var i := IndexOf(t[1..]);
      assert forall j :: 1 <= j < |t| ==> t[j] == t[1..][j - 1];
      if i < 0 then -1 else i + 1
  }

  /** The complete lines of a text, and what follows the last newline. */
  function Lines(t: string): seq<string>
    decreases |t|
  {
    var i := IndexOf(t);
    if i < 0 then [] else [t[..i]] + Lines(t[i + 1..])
  }

  function Rest(t: string): string
    decreases |t|
  {
    var i := IndexOf(t);
    if i < 0 then t else Rest(t[i + 1..])
  }

  // ---- the run ----

  /** `received`, `notes`, `parsed` and `flushed` are history: the output so far, the error
      chunks and start failures in the order they came,
      the lines taken from the first, and whether an unterminated last line was among them.
      `delivered` is what the event callback was called with. */
  datatype Run<E> = Run(
    buf: string, pending: seq<Event<E>>, delivered: seq<Event<E>>,
    paused: bool, finished: bool, cancelled: bool, closed: Option<Outcome>, report: Option<Report>,
    received: string, notes: seq<Event<E>>, parsed: seq<string>, flushed: bool)

  function Fresh<E>(): Run<E> {
    Run("", [], [], false, false, false, None, None, "", [], [], false)
  }

  /** The callback may call `pause` itself: `wants(n)` says whether it does so on the
      n-th event it is given. */
  type Callback = nat -> bool

  function PauseCall<E>(s: Run<E>): Run<E> {
    if s.finished then s else s.(paused := true)
  }

  function Deliver<E>(s: Run<E>, e: Event<E>, wants: Callback): Run<E> {
    var t := s.(delivered := s.delivered + [e]);
    if wants(|t.delivered|) then PauseCall(t) else t
  }

  function Emit<E>(s: Run<E>, e: Event<E>, wants: Callback): Run<E> {
    if s.paused then s.(pending := s.pending + [e]) else Deliver(s, e, wants)
  }

  function EmitLines<E>(s: Run<E>, es: seq<E>, wants: Callback): Run<E> {
    if es == [] then s else Emit(EmitLines(s, es[..|es| - 1], wants), Line(es[|es| - 1]), wants)
  }

  function ParseAndEmit<E>(p: Parser<E>, s: Run<E>, line: string, wants: Callback): Run<E> {
    EmitLines(s.(parsed := s.parsed + [line]), Parse(p, line), wants)
  }

  /** Take every complete line from the buffer; with `flush` also the rest, unless blank. */
  function Drain<E>(p: Parser<E>, s: Run<E>, flush: bool, wants: Callback): (t: Run<E>)
    decreases |s.buf|
  {
    var i := IndexOf(s.buf);
    if i < 0 then
      if !flush || p.blank(s.buf) then s
      else ParseAndEmit(p, s.(buf := "", flushed := true), s.buf, wants)
    else
      var t := ParseAndEmit(p, s.(buf := s.buf[i + 1..]), s.buf[..i], wants);
      EmitKeepsBuf(s.(buf := s.buf[i + 1..], parsed := s.parsed + [s.buf[..i]]), Parse(p, s.buf[..i]), wants);
      Drain(p, t, flush, wants)
  }

  /** One turn of the loop. */
  lemma DrainTurn<E>(p: Parser<E>, s: Run<E>, flush: bool, wants: Callback)
    ensures var i := IndexOf(s.buf);
            if i < 0 then
              Drain(p, s, flush, wants)
              == if !flush || p.blank(s.buf) then s else ParseAndEmit(p, s.(buf := "", flushed := true), s.buf, wants)
            else
              var t := ParseAndEmit(p, s.(buf := s.buf[i + 1..]), s.buf[..i], wants);
              t.buf == s.buf[i + 1..] && Drain(p, s, flush, wants) == Drain(p, t, flush, wants)
  {
    var i := IndexOf(s.buf);
    if i >= 0 {
      EmitKeepsBuf(s.(buf := s.buf[i + 1..], parsed := s.parsed + [s.buf[..i]]), Parse(p, s.buf[..i]), wants);
    }
  }

  lemma {:induction false} EmitKeepsBuf<E>(s: Run<E>, es: seq<E>, wants: Callback)
    ensures var t := EmitLines(s, es, wants);
            t == s.(delivered := t.delivered, pending := t.pending, paused := t.paused)
  {
    if es != [] { EmitKeepsBuf(s, es[..|es| - 1], wants); }
  }

  function FlushPending<E>(s: Run<E>, wants: Callback): Run<E>
    decreases |s.pending|
  {
    if s.paused || s.pending == [] then s
    else FlushPending(Deliver(s.(pending := s.pending[1..]), s.pending[0], wants), wants)
  }

  function Finish<E>(s: Run<E>, r: Report): Run<E> {
    if s.finished then s else s.(finished := true, report := Some(r))
  }

  function MaybeFinishClosed<E>(p: Parser<E>, s: Run<E>, wants: Callback): Run<E> {
    if s.closed.None? then s
    else if s.cancelled then Finish(s, ByCancelledClose(s.closed.value))
    else if s.paused then s
    else Finish(Drain(p, s, true, wants), ByClose(s.closed.value))
  }

  function ResumeCall<E>(p: Parser<E>, s: Run<E>, wants: Callback): Run<E> {
    if s.finished || !s.paused then s
    else
      var s1 := FlushPending(s.(paused := false), wants);
      if s1.paused then s1
      else
        var s2 := Drain(p, s1, s1.closed.Some?, wants);
        if s2.paused then s2 else MaybeFinishClosed(p, s2, wants)
  }

  datatype Input =
    | Data(chunk: string)
    | Stderr(text: string)
    | SpawnError(text: string)
    | Close(outcome: Outcome)
    | Pause
    | Resume
    | Cancel
    | CancelDone

  function React<E>(p: Parser<E>, s: Run<E>, input: Input, wants: Callback): Run<E> {
    match input
    case Data(chunk) =>
      var s1 := s.(buf := s.buf + chunk, received := s.received + chunk);
      if s.paused then s1 else Drain(p, s1, false, wants)
    case Stderr(text) => Emit(s.(notes := s.notes + [StderrChunk(text)]), StderrChunk(text), wants)
    case SpawnError(text) => Finish(Emit(s.(notes := s.notes + [EngineError(text)]), EngineError(text), wants), BySpawnError)
    case Close(outcome) =>
      MaybeFinishClosed(p, s.(closed := Some(if s.cancelled then Cancelled else outcome)), wants)
    case Pause => PauseCall(s)
    case Resume => ResumeCall(p, s, wants)
    case Cancel => if s.finished then s else s.(cancelled := true)
    case CancelDone => Finish(s, ByCancel)
  }

  /** The process closes once, after its output; a cancellation that finds no process
      completes on its own. */
  predicate Enabled<E>(s: Run<E>, input: Input) {
    match input
    case Data(_) => s.closed.None?
    case Stderr(_) => s.closed.None?
    case SpawnError(_) => s.closed.None?
    case Close(_) => s.closed.None?
    case CancelDone => s.cancelled
    case _ => true
  }
}
