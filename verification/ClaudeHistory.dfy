/** Claude session history: one entry per turn, each tool call with its result. */
module ClaudeHistory {
  import opened Options
  import opened HistoryLimits
  import opened ToolCorrelation

  datatype Role = User | Assistant

  datatype Block =
    | ToolUse(id: string, name: string, input: string)
    | ToolResultBlock(id: string, result: ToolResult)
    | OtherBlock

  /** `turn` says that the record is a user or assistant record, `role` is that of its
      message, and `content` is the text extracted from it. */
  datatype Line = Line(index: nat, turn: bool, role: Option<Role>, content: string, blocks: seq<Block>)

  datatype Entry = Entry(line: nat, role: Role, content: string, calls: seq<ToolCall>)

  // ---- what a line contributes ----

  predicate OnlyResults(blocks: seq<Block>) {
    |blocks| > 0 && forall i :: 0 <= i < |blocks| ==> blocks[i].ToolResultBlock?
  }

  predicate Emits(line: Line) {
    line.turn && line.role.Some? && !(line.role.value.User? && OnlyResults(line.blocks))
  }

  function Uses(blocks: seq<Block>): seq<RawCall> {
    if blocks == [] then []
    else
      var init, last := Uses(blocks[..|blocks| - 1]), blocks[|blocks| - 1];
      if last.ToolUse? && last.id != "" && last.name != "" then init + [RawCall(last.id, last.name, last.input)] else init
  }

  function BlockResults(blocks: seq<Block>): seq<Tagged> {
    if blocks == [] then []
    else
      var init, last := BlockResults(blocks[..|blocks| - 1]), blocks[|blocks| - 1];
      if last.ToolResultBlock? && last.id != "" then init + [Tagged(last.id, last.result)] else init
  }

  /** The calls that take part in the matching. */
  function CallsOf(line: Line): seq<RawCall> {
    if Emits(line) && line.role.value.Assistant? then Uses(line.blocks) else []
  }

  function ResultsIn(lines: seq<Line>): seq<Tagged> {
    if lines == [] then [] else ResultsIn(lines[..|lines| - 1]) + BlockResults(lines[|lines| - 1].blocks)
  }

  function CallIdsIn(lines: seq<Line>): seq<string> {
    if lines == [] then [] else CallIdsIn(lines[..|lines| - 1]) + Ids(CallsOf(lines[|lines| - 1]))
  }

  function Shown(calls: seq<ToolCall>): seq<ToolCall> {
    if |calls| > HISTORY_PAGE_MAX then calls[..HISTORY_PAGE_MAX] else calls
  }

  function EntryOf(results: seq<Tagged>, before: seq<string>, line: Line): Entry
    requires Emits(line)
  {
    Entry(line.index, line.role.value, line.content, Shown(Matched(results, before, CallsOf(line))))
  }

  /** The entries of a log, given all the results that calls may draw on. */
  function Entries(results: seq<Tagged>, lines: seq<Line>): seq<Entry> {
    if lines == [] then []
    else
      var init, last := lines[..|lines| - 1], lines[|lines| - 1];
      if Emits(last) then Entries(results, init) + [EntryOf(results, CallIdsIn(init), last)] else Entries(results, init)
  }

  function History(lines: seq<Line>): seq<Entry> {
    Entries(ResultsIn(lines), lines)
  }

  // ---- the builder: collect, then walk and consume ----

  method CollectBlock(q: Queues, block: Block, ghost results: seq<Tagged>) returns (r: Queues)
    requires Holds(q, results, [])
    ensures Holds(r, if block.ToolResultBlock? && block.id != "" then results + [Tagged(block.id, block.result)] else results, [])
  {
    hide Holds, Queue;
    r := q;
    if block.ToolResultBlock? && block.id != "" {
      r := PushToolResult(q, Tagged(block.id, block.result));
      PushHolds(q, r, results, Tagged(block.id, block.result));
    }
  }

  method CollectLine(q: Queues, blocks: seq<Block>, ghost results: seq<Tagged>) returns (r: Queues)
    requires Holds(q, results, [])
    ensures Holds(r, results + BlockResults(blocks), [])
  {
    hide Holds;
    r := q;
    assert results + [] == results;
    var i := 0;
    while i < |blocks|
      invariant 0 <= i <= |blocks| && Holds(r, results + BlockResults(blocks[..i]), [])
    {
      r := CollectBlock(r, blocks[i], results + BlockResults(blocks[..i]));
      assert blocks[..i + 1][..i] == blocks[..i];
      ghost var old_, new_ := BlockResults(blocks[..i]), BlockResults(blocks[..i + 1]);
      assert blocks[i].ToolResultBlock? && blocks[i].id != "" ==>
               results + new_ == results + old_ + [Tagged(blocks[i].id, blocks[i].result)];
      i := i + 1;
    }
    assert blocks[..i] == blocks;
  }

  method CollectResults(lines: seq<Line>) returns (q: Queues)
    ensures Holds(q, ResultsIn(lines), [])
  {
    q := map[];
    NothingHeld();
    hide Holds;
    var i := 0;
    while i < |lines|
      invariant 0 <= i <= |lines| && Holds(q, ResultsIn(lines[..i]), [])
    {
      q := CollectLine(q, lines[i].blocks, ResultsIn(lines[..i]));
      assert lines[..i + 1][..i] == lines[..i];
      i := i + 1;
    }
    assert lines[..i] == lines;
  }

  lemma NothingHeld()
    ensures Holds(map[], [], [])
  {
  }

  method ToolUses(blocks: seq<Block>) returns (calls: seq<RawCall>)
    ensures calls == Uses(blocks)
  {
    calls := [];
    var i := 0;
    while i < |blocks|
      invariant 0 <= i <= |blocks| && calls == Uses(blocks[..i])
    {
      var block := blocks[i];
      if block.ToolUse? && block.id != "" && block.name != "" {
        calls := calls + [RawCall(block.id, block.name, block.input)];
      }
      assert blocks[..i + 1][..i] == blocks[..i];
      i := i + 1;
    }
    assert blocks[..i] == blocks;
  }

  /** One consuming queue per id gives exactly the matching by position. */
  method BuildHistory(lines: seq<Line>) returns (entries: seq<Entry>)
    ensures entries == History(lines)
  {
    var q := CollectResults(lines);
    hide Holds, Matched, Of, Count;
    ghost var results := ResultsIn(lines);
    entries := [];
    var i := 0;
    while i < |lines|
      invariant 0 <= i <= |lines| && entries == Entries(results, lines[..i])
      invariant Holds(q, results, CallIdsIn(lines[..i]))
    {
      var line := lines[i];
      assert lines[..i + 1][..i] == lines[..i];
      ghost var before := CallIdsIn(lines[..i]);
      if Emits(line) {
        var raw: seq<RawCall> := [];
        if line.role.value.Assistant? { raw := ToolUses(line.blocks); }
        var calls: seq<ToolCall>;
        q, calls := CorrelateCalls(q, raw, results, before);
        entries := entries + [Entry(line.index, line.role.value, line.content, Shown(calls))];
      } else {
        assert before + Ids([]) == before;
      }
      i := i + 1;
    }
    assert lines[..i] == lines;
  }

  // ---- properties of the history ----

  ghost predicate Increasing(lines: seq<Line>) {
    forall i, j :: 0 <= i < j < |lines| ==> lines[i].index < lines[j].index
  }

  ghost predicate EmittingLine(lines: seq<Line>, n: nat) {
    exists k :: 0 <= k < |lines| && lines[k].index == n && Emits(lines[k])
  }

  lemma EmittingLineSnoc(init: seq<Line>, last: Line, n: nat)
    ensures EmittingLine(init + [last], n) <==> EmittingLine(init, n) || (last.index == n && Emits(last))
  {
    hide Emits;
    var all := init + [last];
    assert all[|init|] == last;
    if EmittingLine(init, n) {
      var k :| 0 <= k < |init| && init[k].index == n && Emits(init[k]);
      assert all[k] == init[k];
    }
  }

  lemma EntriesSnoc(results: seq<Tagged>, lines: seq<Line>)
    requires lines != []
    ensures var init, last := lines[..|lines| - 1], lines[|lines| - 1];
            Entries(results, lines) ==
            if Emits(last) then Entries(results, init) + [EntryOf(results, CallIdsIn(init), last)] else Entries(results, init)
  {
  }

  /** Entries stand in the order of their lines, each with a line of its own. */
  lemma {:induction false} EntriesIncrease(results: seq<Tagged>, lines: seq<Line>)
    requires Increasing(lines)
    ensures forall i, j :: 0 <= i < j < |Entries(results, lines)| ==> Entries(results, lines)[i].line < Entries(results, lines)[j].line
    ensures forall i :: 0 <= i < |Entries(results, lines)| ==> EmittingLine(lines, Entries(results, lines)[i].line)
  {
    hide Emits, EntryOf, CallIdsIn;
    if lines != [] {
      var init, last := lines[..|lines| - 1], lines[|lines| - 1];
      EntriesIncrease(results, init);
      EntriesSnoc(results, lines);
      if Emits(last) { EntryLine(results, CallIdsIn(init), last); }
      hide Entries;
      var es := Entries(results, init);
      assert lines == init + [last];
      forall i | 0 <= i < |es| ensures es[i].line < last.index && EmittingLine(lines, es[i].line) {
        EmittingLineSnoc(init, last, es[i].line);
        var k :| 0 <= k < |init| && init[k].index == es[i].line && Emits(init[k]);
        assert lines[k] == init[k];
      }
      EmittingLineSnoc(init, last, last.index);
    }
  }

  lemma EntryLine(results: seq<Tagged>, before: seq<string>, line: Line)
    requires Emits(line)
    ensures EntryOf(results, before, line).line == line.index
  {
  }

  /** `b` is `a`, but for results that `a` lacks. */
  ghost predicate OnlyFilled(a: Entry, b: Entry) {
    && b.line == a.line && b.role == a.role && b.content == a.content && |b.calls| == |a.calls|
    && forall j :: 0 <= j < |a.calls| ==>
         && b.calls[j] == a.calls[j].(result := b.calls[j].result)
         && (a.calls[j].result.Some? ==> b.calls[j].result == a.calls[j].result)
  }

  lemma EntryOnlyFilled(results: seq<Tagged>, more: seq<Tagged>, before: seq<string>, line: Line)
    requires Emits(line)
    ensures OnlyFilled(EntryOf(results, before, line), EntryOf(results + more, before, line))
  {
    var calls := CallsOf(line);
    forall j | 0 <= j < |calls|
      ensures var a, b := Matched(results, before, calls)[j], Matched(results + more, before, calls)[j];
              b == a.(result := b.result) && (a.result.Some? ==> b.result == a.result)
    {
      MatchedOnlyFills(results, more, before, calls, j);
    }
    hide Matched, Emits, CallsOf;
  }

  lemma {:induction false} ResultsConcat(lines: seq<Line>, more: seq<Line>)
    ensures ResultsIn(lines + more) == ResultsIn(lines) + ResultsIn(more)
  {
    hide ResultsIn;
    NoResults();
    if more == [] {
      assert lines + more == lines;
    } else {
      var init, last := more[..|more| - 1], more[|more| - 1];
      ResultsConcat(lines, init);
      assert lines + more == (lines + init) + [last] && more == init + [last];
      ResultsSnoc(lines + init, last);
      ResultsSnoc(init, last);
    }
  }

  lemma NoResults()
    ensures ResultsIn([]) == []
  {
  }

  lemma ResultsSnoc(lines: seq<Line>, line: Line)
    ensures ResultsIn(lines + [line]) == ResultsIn(lines) + BlockResults(line.blocks)
  {
    assert (lines + [line])[..|lines|] == lines;
  }

  /** More results, same lines: the same entries, with some results filled in. */
  lemma {:induction false} EntriesOnlyFill(results: seq<Tagged>, extra: seq<Tagged>, lines: seq<Line>)
    ensures var a, b := Entries(results, lines), Entries(results + extra, lines);
            |b| == |a| && forall i :: 0 <= i < |a| ==> OnlyFilled(a[i], b[i])
  {
    if lines != [] {
      var init, last := lines[..|lines| - 1], lines[|lines| - 1];
      EntriesOnlyFill(results, extra, init);
      if Emits(last) { EntryOnlyFilled(results, extra, CallIdsIn(init), last); }
      hide OnlyFilled, EntryOf, Emits;
    }
  }

  /** More lines, same results: the earlier entries stay as they are. */
  lemma {:induction false} EntriesExtend(results: seq<Tagged>, lines: seq<Line>, more: seq<Line>)
    ensures |Entries(results, lines)| <= |Entries(results, lines + more)|
    ensures Entries(results, lines + more)[..|Entries(results, lines)|] == Entries(results, lines)
  {
    hide EntryOf, Emits;
    if more == [] {
      assert lines + more == lines;
    } else {
      EntriesExtend(results, lines, more[..|more| - 1]);
      assert (lines + more)[..|lines + more| - 1] == lines + more[..|more| - 1];
    }
  }

  /** Appending whole lines to a log never changes an output that was already there: it
      only adds entries and fills outputs that were missing. */
  lemma AppendingOnlyFills(lines: seq<Line>, more: seq<Line>)
    ensures var a, b := History(lines), History(lines + more);
            |a| <= |b| && forall i :: 0 <= i < |a| ==> OnlyFilled(a[i], b[i])
  {
    ResultsConcat(lines, more);
    EntriesOnlyFill(ResultsIn(lines), ResultsIn(more), lines);
    EntriesExtend(ResultsIn(lines + more), lines, more);
    hide Entries, ResultsIn, OnlyFilled;
    var a, b, mid := History(lines), History(lines + more), Entries(ResultsIn(lines + more), lines);
    forall i | 0 <= i < |a| ensures b[i] == mid[i] { assert b[..|mid|][i] == b[i]; }
  }
}
