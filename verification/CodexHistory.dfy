/** Codex session history: calls and tool events hang on the assistant entry that is open,
    or on a synthetic one. */
module CodexHistory {
  import opened Options
  import opened HistoryLimits
  import opened ToolCorrelation

  datatype Role = User | Assistant

  /** A tool event; an empty call id means it has none. */
  datatype Enrichment = Enrichment(callId: string, name: string, output: string, failed: bool)

  /** A message of any other role has role None. */
  datatype Item =
    | Message(role: Option<Role>, content: string)
    | CallItem(id: string, name: string, input: string)
    | OutputItem(id: string, result: ToolResult)
    | EventItem(event: Enrichment)
    | OtherItem

  datatype Line = Line(index: nat, item: Item)

  datatype Call =
    | Correlated(id: string, name: string, input: string, result: Option<ToolResult>, events: seq<Enrichment>)
    | FromEvent(event: Enrichment, line: nat)

  datatype Entry = Entry(line: nat, role: Role, content: string, calls: seq<Call>)

  // ---- the first pass ----

  function ResultsIn(lines: seq<Line>): seq<Tagged> {
    if lines == [] then []
    else
      var init, item := ResultsIn(lines[..|lines| - 1]), lines[|lines| - 1].item;
      if item.OutputItem? && item.id != "" then init + [Tagged(item.id, item.result)] else init
  }

  function EventsFor(lines: seq<Line>, id: string): seq<Enrichment> {
    if lines == [] then []
    else
      var init, item := EventsFor(lines[..|lines| - 1], id), lines[|lines| - 1].item;
      if item.EventItem? && item.event.callId == id then init + [item.event] else init
  }

  function KnownCalls(lines: seq<Line>): set<string> {
    if lines == [] then {}
    else
      var init, item := KnownCalls(lines[..|lines| - 1]), lines[|lines| - 1].item;
      if item.CallItem? && item.id != "" then init + {item.id} else init
  }

  // ---- the second pass ----

  predicate Eligible(item: Item) {
    item.CallItem? && item.id != "" && item.name != ""
  }

  predicate Orphan(known: set<string>, item: Item) {
    item.EventItem? && (item.event.callId == "" || item.event.callId !in known)
  }

  function CallIdsIn(lines: seq<Line>): seq<string> {
    if lines == [] then []
    else
      var init, item := CallIdsIn(lines[..|lines| - 1]), lines[|lines| - 1].item;
      if Eligible(item) then init + [item.id] else init
  }

  /** `open` says that the last entry is an assistant entry that takes calls. */
  datatype Progress = Progress(entries: seq<Entry>, open: bool)

  function Shown(calls: seq<Call>): seq<Call> {
    if |calls| > HISTORY_PAGE_MAX then calls[..HISTORY_PAGE_MAX] else calls
  }

  function Attach(p: Progress, line: nat, call: Call): Progress {
    if p.open && p.entries != [] then
      var n := |p.entries| - 1;
      Progress(p.entries[n := p.entries[n].(calls := Shown(p.entries[n].calls + [call]))], true)
    else
      Progress(p.entries + [Entry(line, Assistant, "", Shown([call]))], true)
  }

  function CallOf(all: seq<Line>, before: seq<string>, item: Item): Call
    requires Eligible(item)
  {
    Correlated(item.id, item.name, item.input, ResultFor(ResultsIn(all), before, item.id), EventsFor(all, item.id))
  }

  function Step(all: seq<Line>, before: seq<string>, p: Progress, line: Line): Progress {
    var item := line.item;
    if item.Message? then
      if item.role.None? then p
      else Progress(p.entries + [Entry(line.index, item.role.value, item.content, [])], item.role.value.Assistant?)
    else if Eligible(item) then Attach(p, line.index, CallOf(all, before, item))
    else if Orphan(KnownCalls(all), item) then Attach(p, line.index, FromEvent(item.event, line.index))
    else p
  }

  function Walk(all: seq<Line>, lines: seq<Line>): Progress {
    if lines == [] then Progress([], false)
    else
      var init := lines[..|lines| - 1];
      Step(all, CallIdsIn(init), Walk(all, init), lines[|lines| - 1])
  }

  function History(lines: seq<Line>): seq<Entry> {
    Walk(lines, lines).entries
  }

  // ---- the builder ----

  class MutableEntry {
    const line: nat
    const role: Role
    const content: string
    var calls: seq<Call>

    constructor (line: nat, role: Role, content: string)
      ensures View() == Entry(line, role, content, [])
    {
      this.line, this.role, this.content := line, role, content;
      calls := [];
    }

    function View(): Entry
      reads this
    {
      Entry(line, role, content, calls)
    }
  }

  ghost function Views(entries: seq<MutableEntry>): (r: seq<Entry>)
    reads entries
    ensures |r| == |entries| && forall i :: 0 <= i < |r| ==> r[i] == entries[i].View()
  {
    seq(|entries|, i requires 0 <= i < |entries| reads entries => entries[i].View())
  }

  type EventTable = map<string, seq<Enrichment>>

  ghost predicate TablesOk(q: Queues, events: EventTable, known: set<string>, lines: seq<Line>) {
    && Holds(q, ResultsIn(lines), [])
    && known == KnownCalls(lines)
    && forall id: string :: id != "" ==> (if id in events then events[id] else []) == EventsFor(lines, id)
  }

  lemma EmptyTables()
    ensures TablesOk(map[], map[], {}, [])
  {
  }

  method CollectLine(q: Queues, events: EventTable, known: set<string>, line: Line, ghost lines: seq<Line>)
    returns (q1: Queues, events1: EventTable, known1: set<string>)
    requires TablesOk(q, events, known, lines)
    ensures TablesOk(q1, events1, known1, lines + [line])
  {
    hide Holds, Queue;
    assert (lines + [line])[..|lines|] == lines;
    q1, events1, known1 := q, events, known;
    var item := line.item;
    if item.CallItem? {
      if item.id != "" { known1 := known + {item.id}; }
    } else if item.OutputItem? {
      if item.id != "" {
        q1 := PushToolResult(q, Tagged(item.id, item.result));
        PushHolds(q, q1, ResultsIn(lines), Tagged(item.id, item.result));
      }
    } else if item.EventItem? {
      var id := item.event.callId;
      if id != "" {
        var existing := if id in events then events[id] else [];
        events1 := events[id := existing + [item.event]];
      }
    }
  }

  method CollectTables(lines: seq<Line>) returns (q: Queues, events: EventTable, known: set<string>)
    ensures TablesOk(q, events, known, lines)
  {
    q, events, known := map[], map[], {};
    EmptyTables();
    hide TablesOk;
    var i := 0;
    while i < |lines|
      invariant 0 <= i <= |lines| && TablesOk(q, events, known, lines[..i])
    {
      q, events, known := CollectLine(q, events, known, lines[i], lines[..i]);
      assert lines[..i + 1] == lines[..i] + [lines[i]];
      i := i + 1;
    }
    assert lines[..i] == lines;
  }

  class Builder {
    var entries: seq<MutableEntry>
    var currentAssistant: MutableEntry?

    constructor ()
      ensures Valid() && View() == Progress([], false) && entries == []
    {
      entries, currentAssistant := [], null;
    }

    /** The open entry, if any, is the last one; no entry is listed twice. */
    ghost predicate Valid()
      reads this
    {
      && (currentAssistant != null ==> |entries| > 0 && entries[|entries| - 1] == currentAssistant)
      && forall i, j :: 0 <= i < j < |entries| ==> entries[i] != entries[j]
    }

    ghost function View(): Progress
      reads this, entries
    {
      Progress(Views(entries), currentAssistant != null)
    }

    method AddMessage(line: nat, role: Role, content: string)
      requires Valid()
      modifies this
      ensures Valid() && View() == old(Progress(View().entries + [Entry(line, role, content, [])], role.Assistant?))
      ensures fresh(set e | e in entries && e !in old(entries))
    {
      var entry := new MutableEntry(line, role, content);
      entries := entries + [entry];
      currentAssistant := if role.Assistant? then entry else null;
    }

    /** The owner of a call: the open entry, or a new synthetic one. */
    method Owner(line: nat) returns (owner: MutableEntry)
      requires Valid()
      modifies this
      ensures Valid() && |entries| > 0 && entries[|entries| - 1] == owner && currentAssistant == owner
      ensures Views(entries) == old(if View().open then View().entries else View().entries + [Entry(line, Assistant, "", [])])
      ensures fresh(set e | e in entries && e !in old(entries))
    {
      if currentAssistant != null { return currentAssistant; }
      owner := new MutableEntry(line, Assistant, "");
      entries := entries + [owner];
      currentAssistant := owner;
    }

    method AttachCall(line: nat, call: Call)
      requires Valid()
      modifies this, entries
      ensures Valid() && View() == Attach(old(View()), line, call)
      ensures fresh(set e | e in entries && e !in old(entries))
    {
      hide Shown, Attach, Views;
      var owner := Owner(line);
      AddTo(owner, call);
      AttachSteps(old(View()), line, call);
    }

    /** One more call of the open entry, which is the last one. */
    method AddTo(owner: MutableEntry, call: Call)
      requires Valid() && |entries| > 0 && entries[|entries| - 1] == owner
      modifies owner
      ensures Valid() && entries == old(entries) && currentAssistant == old(currentAssistant)
      ensures var before, n := old(Views(entries)), |entries| - 1;
              Views(entries) == before[n := before[n].(calls := Shown(before[n].calls + [call]))]
    {
      hide Shown;
      owner.calls := Shown(owner.calls + [call]);
      assert forall i :: 0 <= i < |entries| - 1 ==> entries[i].View() == old(entries[i].View());
    }
  }

  /** Attaching to a new synthetic entry is opening it first. */
  lemma AttachSteps(p: Progress, line: nat, call: Call)
    requires p.open ==> p.entries != []
    ensures var es := if p.open then p.entries else p.entries + [Entry(line, Assistant, "", [])];
            var n := |es| - 1;
            Attach(p, line, call) == Progress(es[n := es[n].(calls := Shown(es[n].calls + [call]))], true)
  {
    assert [] + [call] == [call];
  }

  /** One line of the second pass. */
  method ServeLine(q: Queues, events: EventTable, known: set<string>, line: Line, b: Builder,
                   ghost all: seq<Line>, ghost before: seq<string>)
    returns (q1: Queues)
    requires b.Valid() && Holds(q, ResultsIn(all), before) && known == KnownCalls(all)
    requires forall id: string :: id != "" ==> (if id in events then events[id] else []) == EventsFor(all, id)
    modifies b, b.entries
    ensures b.Valid() && b.View() == Step(all, before, old(b.View()), line)
    ensures Holds(q1, ResultsIn(all), if Eligible(line.item) then before + [line.item.id] else before)
    ensures fresh(set e | e in b.entries && e !in old(b.entries))
  {
    hide Holds, ResultFor, Queue, ResultsIn, EventsFor, KnownCalls, Attach, Views;
    q1 := q;
    var item := line.item;
    if item.Message? {
      if item.role.Some? { b.AddMessage(line.index, item.role.value, item.content); }
    } else if Eligible(item) {
      var result;
      q1, result := ConsumeToolResult(q, item.id);
      ConsumeHolds(q, q1, ResultsIn(all), before, item.id);
      var attached := if item.id in events then events[item.id] else [];
      b.AttachCall(line.index, Correlated(item.id, item.name, item.input, result, attached));
    } else if item.EventItem? && (item.event.callId == "" || item.event.callId !in known) {
      b.AttachCall(line.index, FromEvent(item.event, line.index));
    }
  }

  /** The queues, the event table and the open entry together compute the walk. */
  method BuildHistory(lines: seq<Line>) returns (entries: seq<MutableEntry>)
    ensures Views(entries) == History(lines) && fresh(entries)
  {
    var q, events, known := CollectTables(lines);
    assert Holds(q, ResultsIn(lines), []);
    var b := new Builder();
    hide Holds, ResultFor, Queue, ResultsIn, EventsFor, KnownCalls, Step, Views;
    ghost var results := ResultsIn(lines);
    var i := 0;
    while i < |lines|
      invariant 0 <= i <= |lines| && b.Valid() && fresh(b) && fresh(b.entries)
      invariant Holds(q, results, CallIdsIn(lines[..i]))
      invariant b.View() == Walk(lines, lines[..i])
    {
      assert lines[..i + 1][..i] == lines[..i];
      ghost var before := CallIdsIn(lines[..i]);
      q := ServeLine(q, events, known, lines[i], b, lines, before);
      i := i + 1;
    }
    assert lines[..i] == lines;
    entries := b.entries;
  }

  // ---- properties of the history ----

  ghost predicate Increasing(lines: seq<Line>) {
    forall i, j :: 0 <= i < j < |lines| ==> lines[i].index < lines[j].index
  }

  ghost predicate InOrder(p: Progress, last: int) {
    && (forall i, j :: 0 <= i < j < |p.entries| ==> p.entries[i].line < p.entries[j].line)
    && (forall i :: 0 <= i < |p.entries| ==> p.entries[i].line <= last)
    && (p.open ==> p.entries != [] && p.entries[|p.entries| - 1].role.Assistant?)
    && (forall i :: 0 <= i < |p.entries| && p.entries[i].role.User? ==> p.entries[i].calls == [])
    && (forall i :: 0 <= i < |p.entries| ==> |p.entries[i].calls| <= HISTORY_PAGE_MAX)
  }

  lemma StepInOrder(all: seq<Line>, before: seq<string>, p: Progress, line: Line, last: int)
    requires InOrder(p, last) && last < line.index
    ensures InOrder(Step(all, before, p, line), line.index)
  {
    hide KnownCalls, CallOf, Attach;
    if Eligible(line.item) {
      AttachInOrder(p, line.index, CallOf(all, before, line.item), last);
    } else if line.item.EventItem? {
      AttachInOrder(p, line.index, FromEvent(line.item.event, line.index), last);
    }
  }

  lemma AttachInOrder(p: Progress, line: nat, call: Call, last: int)
    requires InOrder(p, last) && last < line
    ensures InOrder(Attach(p, line, call), line)
  {
  }

  /** Entries stand in the order of their lines, synthetic ones included; calls hang on
      assistant entries only, and never more than the page limit. */
  lemma {:induction false} HistoryInOrder(all: seq<Line>, lines: seq<Line>)
    requires Increasing(lines)
    ensures InOrder(Walk(all, lines), if lines == [] then -1 else lines[|lines| - 1].index)
  {
    if lines != [] {
      var init, last := lines[..|lines| - 1], lines[|lines| - 1];
      HistoryInOrder(all, init);
      StepInOrder(all, CallIdsIn(init), Walk(all, init), last, if init == [] then -1 else init[|init| - 1].index);
    }
  }

  /** A shown call is that of some line: a correlated one has the result its position
      earns and all events of its id, an uncorrelated one is an orphan event. */
  ghost predicate Earned(all: seq<Line>, lines: seq<Line>, c: Call) {
    exists k :: 0 <= k < |lines| && EarnedAt(all, lines, c, k)
  }

  ghost predicate EarnedAt(all: seq<Line>, lines: seq<Line>, c: Call, k: nat)
    requires k < |lines|
  {
    var item := lines[k].item;
    if item.CallItem? && item.id != "" && item.name != "" then
      && c.Correlated? && c.id == item.id && c.name == item.name && c.input == item.input
      && c.result == ResultFor(ResultsIn(all), CallIdsIn(lines[..k]), item.id) && c.events == EventsFor(all, item.id)
    else Orphan(KnownCalls(all), item) && c == FromEvent(item.event, lines[k].index)
  }

  lemma EarnedSnoc(all: seq<Line>, lines: seq<Line>, c: Call)
    requires lines != []
    ensures Earned(all, lines[..|lines| - 1], c) ==> Earned(all, lines, c)
    ensures EarnedAt(all, lines, c, |lines| - 1) ==> Earned(all, lines, c)
  {
    hide Eligible, Orphan, CallOf, CallIdsIn, KnownCalls;
    var init := lines[..|lines| - 1];
    if Earned(all, init, c) {
      var k :| 0 <= k < |init| && EarnedAt(all, init, c, k);
      assert init[..k] == lines[..k] && init[k] == lines[k];
      assert EarnedAt(all, lines, c, k);
    }
  }

  ghost predicate AllEarned(all: seq<Line>, lines: seq<Line>, entries: seq<Entry>) {
    forall i, j :: 0 <= i < |entries| && 0 <= j < |entries[i].calls| ==> Earned(all, lines, entries[i].calls[j])
  }

  lemma AttachEarned(all: seq<Line>, lines: seq<Line>, p: Progress, line: nat, c: Call)
    requires AllEarned(all, lines, p.entries) && Earned(all, lines, c)
    ensures AllEarned(all, lines, Attach(p, line, c).entries)
  {
    hide Earned;
  }

  /** Every call shown has exactly the result that its position among the calls of its id
      earns it. */
  lemma {:induction false} ShownCallsAreEarned(all: seq<Line>, lines: seq<Line>)
    ensures AllEarned(all, lines, Walk(all, lines).entries)
  {
    if lines != [] {
      var init, last := lines[..|lines| - 1], lines[|lines| - 1];
      ShownCallsAreEarned(all, init);
      var p, before := Walk(all, init), CallIdsIn(init);
      forall c: Call ensures Earned(all, init, c) ==> Earned(all, lines, c) { EarnedSnoc(all, lines, c); }
      assert AllEarned(all, lines, p.entries) by { hide Earned; }
      if Eligible(last.item) {
        EarnedSnoc(all, lines, CallOf(all, before, last.item));
        AttachEarned(all, lines, p, last.index, CallOf(all, before, last.item));
      } else if Orphan(KnownCalls(all), last.item) {
        EarnedSnoc(all, lines, FromEvent(last.item.event, last.index));
        AttachEarned(all, lines, p, last.index, FromEvent(last.item.event, last.index));
      }
      hide Earned, CallOf, KnownCalls, CallIdsIn, Attach;
    }
  }
}
