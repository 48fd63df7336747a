/** A Claude history told from the log alone: which records are shown, with what role and
    content, which calls they carry and which result each call has. */
module ClaudeShown {
  import opened Options
  import opened ToolCorrelation
  import opened ClaudeHistory
  import opened Listings

  // ---- the log ----

  /** A user or assistant record with such a message, unless a user message holds nothing
      but tool results. */
  predicate Turn(line: Line) {
    && line.turn && line.role.Some?
    && (line.role == Some(User) && line.blocks != [] ==>
          exists i :: 0 <= i < |line.blocks| && !line.blocks[i].ToolResultBlock?)
  }

  predicate IsUse(b: Block) {
    b.ToolUse? && b.id != "" && b.name != ""
  }

  /** The positions of the turns of a log. */
  function TurnIn(lines: seq<Line>): nat -> bool {
    (k: nat) => k < |lines| && Turn(lines[k])
  }

  /** The positions of the calls of a line. */
  function UseIn(blocks: seq<Block>): nat -> bool {
    (i: nat) => i < |blocks| && IsUse(blocks[i])
  }

  predicate UseOf(b: Block, id: string) {
    IsUse(b) && b.id == id
  }

  predicate ResultOf(b: Block, id: string) {
    b.ToolResultBlock? && b.id == id && id != ""
  }

  function UsesIn(blocks: seq<Block>, id: string): nat {
    if blocks == [] then 0 else UsesIn(blocks[..|blocks| - 1], id) + if UseOf(blocks[|blocks| - 1], id) then 1 else 0
  }

  function BlockResultsIn(blocks: seq<Block>, id: string): nat {
    if blocks == [] then 0
    else BlockResultsIn(blocks[..|blocks| - 1], id) + if ResultOf(blocks[|blocks| - 1], id) then 1 else 0
  }

  /** The calls with this id that assistant turns make. */
  function CallsWith(lines: seq<Line>, id: string): nat {
    if lines == [] then 0
    else
      var last := lines[|lines| - 1];
      CallsWith(lines[..|lines| - 1], id) + if Turn(last) && last.role == Some(Assistant) then UsesIn(last.blocks, id) else 0
  }

  /** The results with this id, wherever they stand. */
  function ResultsWith(lines: seq<Line>, id: string): nat {
    if lines == [] then 0
    else ResultsWith(lines[..|lines| - 1], id) + BlockResultsIn(lines[|lines| - 1].blocks, id)
  }

  /** `r` is the result with this id that has `n` before it in the log; None if there are
      not so many. */
  ghost predicate IsNthResult(lines: seq<Line>, id: string, n: nat, r: Option<ToolResult>) {
    && (r.Some? <==> n < ResultsWith(lines, id))
    && forall k, i :: 0 <= k < |lines| && 0 <= i < |lines[k].blocks| && NthAt(lines, id, n, k, i) ==>
         r == Some(lines[k].blocks[i].result)
  }

  ghost predicate NthAt(lines: seq<Line>, id: string, n: nat, k: nat, i: nat)
    requires k < |lines| && i < |lines[k].blocks|
  {
    ResultOf(lines[k].blocks[i], id) && ResultsWith(lines[..k], id) + BlockResultsIn(lines[k].blocks[..i], id) == n
  }

  /** The call that block `i` of line `k` makes: its own id, name and input, and the result
      with as many before it as there are calls with its id before this one. */
  ghost predicate CallAt(lines: seq<Line>, k: nat, i: nat, c: ToolCall)
    requires k < |lines| && i < |lines[k].blocks|
  {
    var b := lines[k].blocks[i];
    && b.ToolUse? && c.id == b.id && c.name == b.name && c.input == b.input
    && IsNthResult(lines, b.id, CallsWith(lines[..k], b.id) + UsesIn(lines[k].blocks[..i], b.id), c.result)
  }

  /** The calls shown for line `k`: of a user turn none, of an assistant turn the first 256. */
  ghost predicate CallsShown(lines: seq<Line>, k: nat, calls: seq<ToolCall>)
    requires k < |lines|
  {
    if lines[k].role != Some(Assistant) then calls == []
    else
      var blocks := lines[k].blocks;
      exists at: seq<nat> :: Lists(at, |blocks|, UseIn(blocks)) && CallsListed(lines, k, at, calls)
  }

  ghost predicate CallsListed(lines: seq<Line>, k: nat, at: seq<nat>, calls: seq<ToolCall>)
    requires k < |lines|
  {
    && |calls| == (if |at| > 256 then 256 else |at|)
    && forall j :: 0 <= j < |calls| ==> at[j] < |lines[k].blocks| && CallAt(lines, k, at[j], calls[j])
  }

  /** The entry of line `k`. */
  ghost predicate EntryAt(lines: seq<Line>, k: nat, e: Entry) {
    && k < |lines| && e.line == lines[k].index && Some(e.role) == lines[k].role && e.content == lines[k].content
    && CallsShown(lines, k, e.calls)
  }

  /** The history shows exactly the turns, one entry each, in order. */
  ghost predicate ShowsTurns(lines: seq<Line>, at: seq<nat>, entries: seq<Entry>) {
    && Lists(at, |lines|, TurnIn(lines))
    && EntriesAt(lines, at, entries)
  }

  ghost predicate EntriesAt(lines: seq<Line>, at: seq<nat>, entries: seq<Entry>) {
    |entries| == |at| && forall n :: 0 <= n < |at| ==> EntryAt(lines, at[n], entries[n])
  }

  // ---- results by position ----

  lemma {:induction false} BlockResultsFound(blocks: seq<Block>, id: string)
    ensures |Of(BlockResults(blocks), id)| == if id == "" then 0 else BlockResultsIn(blocks, id)
    ensures forall i :: 0 <= i < |blocks| && ResultOf(blocks[i], id) ==>
              && BlockResultsIn(blocks[..i], id) < |Of(BlockResults(blocks), id)|
              && Of(BlockResults(blocks), id)[BlockResultsIn(blocks[..i], id)] == blocks[i].result
  {
    if blocks != [] {
      var init, last := blocks[..|blocks| - 1], blocks[|blocks| - 1];
      BlockResultsFound(init, id);
      if last.ToolResultBlock? && last.id != "" { OfSnoc(BlockResults(init), Tagged(last.id, last.result), id); }
      hide Of;
      forall i | 0 <= i < |blocks| && ResultOf(blocks[i], id)
        ensures BlockResultsIn(blocks[..i], id) < |Of(BlockResults(blocks), id)|
        ensures Of(BlockResults(blocks), id)[BlockResultsIn(blocks[..i], id)] == blocks[i].result
      {
        if i < |init| { assert init[..i] == blocks[..i] && init[i] == blocks[i]; } else { assert blocks[..i] == init; }
      }
    }
  }

  lemma {:induction false} OfConcat(a: seq<Tagged>, b: seq<Tagged>, id: string)
    ensures Of(a + b, id) == Of(a, id) + Of(b, id)
  {
    hide Of;
    if b == [] {
      assert a + b == a;
      assert Of(b, id) == [] by { OfNothing(id); }
    } else {
      var init, last := b[..|b| - 1], b[|b| - 1];
      OfConcat(a, init, id);
      assert a + b == (a + init) + [last] && b == init + [last];
      OfSnoc(a + init, last, id);
      OfSnoc(init, last, id);
    }
  }

  lemma OfNothing(id: string)
    ensures Of([], id) == []
  {
  }

  lemma ResultsOfOneMore(lines: seq<Line>, id: string)
    requires lines != []
    ensures var init, last := lines[..|lines| - 1], lines[|lines| - 1];
            && Of(ResultsIn(lines), id) == Of(ResultsIn(init), id) + Of(BlockResults(last.blocks), id)
            && ResultsWith(lines, id) == ResultsWith(init, id) + BlockResultsIn(last.blocks, id)
  {
    OfConcat(ResultsIn(lines[..|lines| - 1]), BlockResults(lines[|lines| - 1].blocks), id);
    hide Of, BlockResults, BlockResultsIn;
  }

  /** Block `i` of line `k`, if it is a result with this id, is where `rs` has it. */
  ghost predicate Found(lines: seq<Line>, id: string, rs: seq<ToolResult>, k: nat, i: nat)
    requires k < |lines| && i < |lines[k].blocks|
  {
    ResultOf(lines[k].blocks[i], id) ==>
      var n := ResultsWith(lines[..k], id) + BlockResultsIn(lines[k].blocks[..i], id);
      n < |rs| && rs[n] == lines[k].blocks[i].result
  }

  /** Where a result stands among those of its id. */
  lemma {:induction false} ResultsFound(lines: seq<Line>, id: string, k: nat, i: nat)
    requires id != "" && k < |lines| && i < |lines[k].blocks|
    ensures Found(lines, id, Of(ResultsIn(lines), id), k, i)
  {
    hide Of, ResultsIn, BlockResults, ResultOf, BlockResultsIn, ResultsWith;
    var init, last := lines[..|lines| - 1], lines[|lines| - 1];
    ResultsOfOneMore(lines, id);
    if k < |init| {
      ResultsFound(init, id, k, i);
      assert init[..k] == lines[..k] && init[k] == lines[k];
    } else {
      BlockResultsFound(last.blocks, id);
      ResultsTotal(init, id);
      assert lines[..k] == init;
    }
  }

  lemma {:induction false} ResultsTotal(lines: seq<Line>, id: string)
    requires id != ""
    ensures |Of(ResultsIn(lines), id)| == ResultsWith(lines, id)
  {
    hide Of, BlockResults, BlockResultsIn;
    if lines == [] {
      OfNothing(id);
    } else {
      ResultsTotal(lines[..|lines| - 1], id);
      ResultsOfOneMore(lines, id);
      BlockResultsFound(lines[|lines| - 1].blocks, id);
    }
  }

  lemma NthIs(lines: seq<Line>, id: string, n: nat)
    requires id != ""
    ensures IsNthResult(lines, id, n, Nth(Of(ResultsIn(lines), id), n))
  {
    hide Of, ResultsIn, ResultsWith, BlockResultsIn;
    ResultsTotal(lines, id);
    var r := Nth(Of(ResultsIn(lines), id), n);
    forall k, i | 0 <= k < |lines| && 0 <= i < |lines[k].blocks| && NthAt(lines, id, n, k, i)
      ensures r == Some(lines[k].blocks[i].result)
    {
      ResultsFound(lines, id, k, i);
    }
  }

  // ---- calls by position ----

  lemma EmitsIff(line: Line)
    ensures Emits(line) <==> Turn(line)
  {
  }

  /** The use at position `i` is the `j`-th of `raw`. */
  ghost predicate UseAt(blocks: seq<Block>, i: nat, raw: seq<RawCall>, j: nat) {
    && i < |blocks| && j < |raw| && IsUse(blocks[i]) && raw[j] == RawCall(blocks[i].id, blocks[i].name, blocks[i].input)
    && forall id: string :: Count(Ids(raw)[..j], id) == UsesIn(blocks[..i], id)
  }

  lemma {:induction false} UsesCounted(blocks: seq<Block>, id: string)
    ensures Count(Ids(Uses(blocks)), id) == UsesIn(blocks, id)
  {
    if blocks != [] {
      var init, b := blocks[..|blocks| - 1], blocks[|blocks| - 1];
      UsesCounted(init, id);
      if IsUse(b) {
        IdsSnoc(Uses(init), RawCall(b.id, b.name, b.input));
        CountSnoc(Ids(Uses(init)), b.id, id);
      }
      hide Count, Ids;
    }
  }

  lemma UseStays(blocks: seq<Block>, i: nat, raw: seq<RawCall>, j: nat, call: RawCall)
    requires UseAt(blocks, i, raw, j)
    ensures UseAt(blocks, i, raw + [call], j)
  {
    IdsSnoc(raw, call);
    assert Ids(raw + [call])[..j] == Ids(raw)[..j];
    hide Count, UsesIn;
  }

  lemma NewUse(blocks: seq<Block>, n: nat)
    requires n < |blocks| && IsUse(blocks[n])
    ensures UseAt(blocks, n, Uses(blocks[..n + 1]), |Uses(blocks[..n])|)
  {
    var b, prev := blocks[n], Uses(blocks[..n]);
    assert blocks[..n + 1][..n] == blocks[..n];
    IdsSnoc(prev, RawCall(b.id, b.name, b.input));
    assert Ids(prev + [RawCall(b.id, b.name, b.input)])[..|prev|] == Ids(prev);
    forall id: string ensures Count(Ids(prev), id) == UsesIn(blocks[..n], id) { UsesCounted(blocks[..n], id); }
    hide Count, UsesIn, Ids;
  }

  lemma UsesOfOneMore(blocks: seq<Block>, n: nat)
    requires n < |blocks|
    ensures var b := blocks[n];
            Uses(blocks[..n + 1]) == if IsUse(b) then Uses(blocks[..n]) + [RawCall(b.id, b.name, b.input)] else Uses(blocks[..n])
  {
    assert blocks[..n + 1][..n] == blocks[..n];
  }

  ghost predicate UsesAt(blocks: seq<Block>, at: seq<nat>, raw: seq<RawCall>) {
    |at| == |raw| && forall j :: 0 <= j < |at| ==> UseAt(blocks, at[j], raw, j)
  }

  lemma UsesAtSnoc(blocks: seq<Block>, at: seq<nat>, raw: seq<RawCall>, n: nat, call: RawCall)
    requires UsesAt(blocks, at, raw) && UseAt(blocks, n, raw + [call], |raw|)
    ensures UsesAt(blocks, at + [n], raw + [call])
  {
    hide UseAt;
    forall j | 0 <= j < |at| ensures UseAt(blocks, at[j], raw + [call], j) { UseStays(blocks, at[j], raw, j, call); }
  }

  lemma NextUse(blocks: seq<Block>, n: nat)
    requires n < |blocks|
    ensures UseIn(blocks)(n) <==> IsUse(blocks[n])
  {
  }

  /** The uses among blocks, by their positions. */
  lemma {:induction false} UsesAre(blocks: seq<Block>, n: nat) returns (at: seq<nat>)
    requires n <= |blocks|
    ensures Lists(at, n, UseIn(blocks)) && UsesAt(blocks, at, Uses(blocks[..n]))
  {
    hide UsesAt, Uses, Lists, UseIn, UseAt;
    if n == 0 {
      at := [];
      ListsNone(UseIn(blocks));
      NoUses(blocks);
    } else {
      var b := blocks[n - 1];
      at := UsesAre(blocks, n - 1);
      ListsSnoc(at, n - 1, UseIn(blocks));
      NextUse(blocks, n - 1);
      UsesOfOneMore(blocks, n - 1);
      if IsUse(b) {
        NewUse(blocks, n - 1);
        UsesAtSnoc(blocks, at, Uses(blocks[..n - 1]), n - 1, RawCall(b.id, b.name, b.input));
        at := at + [n - 1];
      }
    }
  }

  lemma NoUses(blocks: seq<Block>)
    ensures Uses(blocks[..0]) == [] && UsesAt(blocks, [], [])
  {
  }

  lemma IdsSnoc(calls: seq<RawCall>, call: RawCall)
    ensures Ids(calls + [call]) == Ids(calls) + [call.id]
  {
    assert (calls + [call])[..|calls|] == calls;
  }

  lemma {:induction false} CountConcat(a: seq<string>, b: seq<string>, id: string)
    ensures Count(a + b, id) == Count(a, id) + Count(b, id)
  {
    if b == [] {
      assert a + b == a;
    } else {
      CountConcat(a, b[..|b| - 1], id);
      assert (a + b)[..|a + b| - 1] == a + b[..|b| - 1];
    }
  }

  /** The ids of the calls of a line, counted. */
  lemma IdsCounted(line: Line, id: string)
    ensures Count(Ids(CallsOf(line)), id) == if Turn(line) && line.role == Some(Assistant) then UsesIn(line.blocks, id) else 0
  {
    EmitsIff(line);
    UsesCounted(line.blocks, id);
    NoneCounted(id);
    hide Uses, UsesIn, Count;
  }

  lemma {:induction false} CallsCounted(lines: seq<Line>, id: string)
    ensures Count(CallIdsIn(lines), id) == CallsWith(lines, id)
  {
    hide CallsOf, Count, UsesIn, Turn;
    if lines == [] {
      assert Count([], id) == 0 by { NoneCounted(id); }
    } else {
      var init, last := lines[..|lines| - 1], lines[|lines| - 1];
      CallsCounted(init, id);
      IdsCounted(last, id);
      CountConcat(CallIdsIn(init), Ids(CallsOf(last)), id);
    }
  }

  lemma NoneCounted(id: string)
    ensures Count([], id) == 0
  {
  }

  /** The calls of an assistant turn are those of its blocks. */
  lemma LineCalls(lines: seq<Line>, k: nat)
    requires k < |lines| && Turn(lines[k])
    ensures CallsShown(lines, k, Shown(Matched(ResultsIn(lines), CallIdsIn(lines[..k]), CallsOf(lines[k]))))
  {
    hide Uses, Emits, Turn, Matched, ResultsIn, CallIdsIn, UseAt, CallAt, IsUse, Lists;
    var line, results, before := lines[k], ResultsIn(lines), CallIdsIn(lines[..k]);
    EmitsIff(line);
    TurnHasRole(line);
    if line.role == Some(Assistant) {
      var blocks := line.blocks;
      var at := UsesAre(blocks, |blocks|);
      assert blocks[..|blocks|] == blocks;
      var raw := Uses(blocks);
      var calls := Matched(results, before, raw);
      forall j | 0 <= j < |raw| ensures at[j] < |blocks| && CallAt(lines, k, at[j], calls[j]) {
        OneCall(lines, k, at[j], raw, j);
      }
      assert CallsListed(lines, k, at, Shown(calls));
    } else {
      NoCalls(results, before);
    }
  }

  lemma NoCalls(results: seq<Tagged>, before: seq<string>)
    ensures Matched(results, before, []) == []
  {
  }

  lemma TurnHasRole(line: Line)
    requires Turn(line)
    ensures line.role.Some?
  {
  }

  lemma OneCall(lines: seq<Line>, k: nat, i: nat, raw: seq<RawCall>, j: nat)
    requires k < |lines| && j < |raw| && UseAt(lines[k].blocks, i, raw, j)
    ensures i < |lines[k].blocks| && CallAt(lines, k, i, Matched(ResultsIn(lines), CallIdsIn(lines[..k]), raw)[j])
  {
    hide Matched, ResultsIn, CallIdsIn, Of, Count, UsesIn, CallsWith, IsNthResult, Ids;
    var b, before := lines[k].blocks[i], CallIdsIn(lines[..k]);
    KthCallGetsKthResult(ResultsIn(lines), before, raw, j);
    CallsCounted(lines[..k], b.id);
    CountConcat(before, Ids(raw)[..j], b.id);
    assert (before + Ids(raw))[..|before| + j] == before + Ids(raw)[..j];
    NthIs(lines, b.id, CallsWith(lines[..k], b.id) + UsesIn(lines[k].blocks[..i], b.id));
  }

  // ---- the history ----

  lemma EntryShown(lines: seq<Line>, k: nat)
    requires k < |lines| && Turn(lines[k]) && Emits(lines[k])
    ensures EntryAt(lines, k, EntryOf(ResultsIn(lines), CallIdsIn(lines[..k]), lines[k]))
  {
    LineCalls(lines, k);
    hide ResultsIn, CallsShown, CallIdsIn, Matched, CallsOf;
  }

  lemma NextTurn(lines: seq<Line>, n: nat)
    requires n < |lines|
    ensures TurnIn(lines)(n) <==> Turn(lines[n])
    ensures Turn(lines[n]) <==> Emits(lines[n])
  {
    EmitsIff(lines[n]);
    hide Turn, Emits;
  }

  lemma EntriesOfOneMore(results: seq<Tagged>, lines: seq<Line>, n: nat)
    requires n < |lines|
    ensures Entries(results, lines[..n + 1]) ==
            if Emits(lines[n]) then Entries(results, lines[..n]) + [EntryOf(results, CallIdsIn(lines[..n]), lines[n])]
            else Entries(results, lines[..n])
  {
    assert lines[..n + 1][..n] == lines[..n];
    EntriesSnoc(results, lines[..n + 1]);
    hide Entries, Emits, EntryOf, CallIdsIn;
  }

  lemma {:induction false} EntriesShown(lines: seq<Line>, n: nat) returns (at: seq<nat>)
    requires n <= |lines|
    ensures Lists(at, n, TurnIn(lines)) && EntriesAt(lines, at, Entries(ResultsIn(lines), lines[..n]))
  {
    hide ResultsIn, CallIdsIn, Turn, Emits, EntryOf, Entries, EntryAt, EntriesAt, Lists, TurnIn;
    if n == 0 {
      at := [];
      ListsNone(TurnIn(lines));
      NoEntries(ResultsIn(lines), lines);
    } else {
      at := EntriesShown(lines, n - 1);
      ListsSnoc(at, n - 1, TurnIn(lines));
      NextTurn(lines, n - 1);
      EntriesOfOneMore(ResultsIn(lines), lines, n - 1);
      if Turn(lines[n - 1]) {
        EntryShown(lines, n - 1);
        EntriesAtSnoc(lines, at, Entries(ResultsIn(lines), lines[..n - 1]), n - 1,
                      EntryOf(ResultsIn(lines), CallIdsIn(lines[..n - 1]), lines[n - 1]));
        at := at + [n - 1];
      }
    }
  }

  lemma EntriesAtSnoc(lines: seq<Line>, at: seq<nat>, es: seq<Entry>, k: nat, e: Entry)
    requires EntriesAt(lines, at, es) && EntryAt(lines, k, e)
    ensures EntriesAt(lines, at + [k], es + [e])
  {
    hide EntryAt;
  }

  lemma NoEntries(results: seq<Tagged>, lines: seq<Line>)
    ensures Entries(results, lines[..0]) == [] && EntriesAt(lines, [], [])
  {
  }

  /** The history of a log: an entry for exactly each user or assistant record whose message
      has a role and is not a user message of tool results alone, in order; with the line,
      role and content of the record; with the calls of an assistant record that have an id
      and a name, in order, up to 256; and each call with the result at its own position
      among those of its id. */
  lemma HistoryShowsTurns(lines: seq<Line>) returns (at: seq<nat>)
    ensures ShowsTurns(lines, at, History(lines))
  {
    at := EntriesShown(lines, |lines|);
    assert lines[..|lines|] == lines;
    hide Entries, ResultsIn, CallsShown, Turn;
  }
}
