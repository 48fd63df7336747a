/** A Codex history told from the log alone: which lines have an entry, with what role and
    content, and which calls hang on it with which results and events. */
module CodexShown {
  import opened Options
  import opened HistoryLimits
  import opened ToolCorrelation
  import opened CodexHistory
  import opened Listings

  // ---- the log ----

  predicate IsMessage(item: Item) {
    item.Message? && item.role.Some?
  }

  predicate IsCall(item: Item) {
    item.CallItem? && item.id != "" && item.name != ""
  }

  /** A tool event that no call in the log can take up. */
  ghost predicate IsLoose(all: seq<Line>, item: Item) {
    && item.EventItem?
    && (item.event.callId == "" || forall k :: 0 <= k < |all| && all[k].item.CallItem? ==> all[k].item.id != item.event.callId)
  }

  /** The line brings a call of its own. */
  ghost predicate Serves(all: seq<Line>, item: Item) {
    IsCall(item) || IsLoose(all, item)
  }

  predicate CallWith(item: Item, id: string) {
    IsCall(item) && item.id == id
  }

  predicate ResultWith(item: Item, id: string) {
    item.OutputItem? && item.id == id && id != ""
  }

  predicate EventWith(item: Item, id: string) {
    item.EventItem? && item.event.callId == id
  }

  function CallsWith(lines: seq<Line>, id: string): nat {
    if lines == [] then 0 else CallsWith(lines[..|lines| - 1], id) + if CallWith(lines[|lines| - 1].item, id) then 1 else 0
  }

  function ResultsWith(lines: seq<Line>, id: string): nat {
    if lines == [] then 0 else ResultsWith(lines[..|lines| - 1], id) + if ResultWith(lines[|lines| - 1].item, id) then 1 else 0
  }

  // ---- calls ----

  /** `r` is the result with this id that has `n` before it; None if there are not so many. */
  ghost predicate IsNthResult(all: seq<Line>, id: string, n: nat, r: Option<ToolResult>) {
    && (r.Some? <==> n < ResultsWith(all, id))
    && forall k :: 0 <= k < |all| && NthAt(all, id, n, k) ==> r == Some(all[k].item.result)
  }

  ghost predicate NthAt(all: seq<Line>, id: string, n: nat, k: nat)
    requires k < |all|
  {
    ResultWith(all[k].item, id) && ResultsWith(all[..k], id) == n
  }

  function EventIn(all: seq<Line>, id: string): nat -> bool {
    (k: nat) => k < |all| && EventWith(all[k].item, id)
  }

  /** All events with this id, in order. */
  ghost predicate EventsAre(all: seq<Line>, id: string, events: seq<Enrichment>) {
    exists at: seq<nat> :: Lists(at, |all|, EventIn(all, id)) && EventsListed(all, at, events)
  }

  ghost predicate EventsListed(all: seq<Line>, at: seq<nat>, events: seq<Enrichment>) {
    && |events| == |at|
    && forall m :: 0 <= m < |at| ==> at[m] < |all| && all[at[m]].item.EventItem? && events[m] == all[at[m]].item.event
  }

  /** What line `j` brings: a call with its own id, name and input, the result with as many
      before it as there are calls with its id before this one, and all events of its id;
      or an event that stands on its own. */
  ghost predicate CallAt(all: seq<Line>, j: nat, c: Call) {
    && j < |all|
    && var item := all[j].item;
       if IsCall(item) then
         && c.Correlated? && c.id == item.id && c.name == item.name && c.input == item.input
         && IsNthResult(all, item.id, CallsWith(all[..j], item.id), c.result) && EventsAre(all, item.id, c.events)
       else item.EventItem? && c == FromEvent(item.event, all[j].index)
  }

  ghost function ServedFrom(all: seq<Line>, k: nat): nat -> bool {
    (j: nat) => k <= j < |all| && Serves(all, all[j].item)
  }

  /** The calls of the lines from `k` on and before `next`, in order, up to 256. */
  ghost predicate CallsFrom(all: seq<Line>, k: nat, next: nat, calls: seq<Call>) {
    exists at: seq<nat> :: Lists(at, next, ServedFrom(all, k)) && CallsListed(all, at, calls)
  }

  ghost predicate CallsListed(all: seq<Line>, at: seq<nat>, calls: seq<Call>) {
    && |calls| == (if |at| > 256 then 256 else |at|)
    && forall m :: 0 <= m < |calls| ==> CallAt(all, at[m], calls[m])
  }

  // ---- entries ----

  /** An entry is open before line `k`: an assistant message or a call opened it, and no
      user message came since. */
  ghost predicate OpenAt(all: seq<Line>, k: nat)
    requires k <= |all|
  {
    exists j: nat :: j < k && OpenSince(all, j, k)
  }

  ghost predicate OpenSince(all: seq<Line>, j: nat, k: nat)
    requires j < k <= |all|
  {
    && (Serves(all, all[j].item) || (IsMessage(all[j].item) && all[j].item.role == Some(Assistant)))
    && forall i :: j < i < k && IsMessage(all[i].item) ==> all[i].item.role != Some(User)
  }

  /** A message with a role has an entry, and so has a call or event that finds none open. */
  ghost predicate Heads(all: seq<Line>, k: nat)
    requires k < |all|
  {
    IsMessage(all[k].item) || (Serves(all, all[k].item) && !OpenAt(all, k))
  }

  ghost function HeadIn(all: seq<Line>): nat -> bool {
    (k: nat) => k < |all| && Heads(all, k)
  }

  /** The entry of line `k`, when the next one begins at `next`: a message has its role and
      content, any other is an assistant entry without content. */
  ghost predicate EntryAt(all: seq<Line>, k: nat, next: nat, e: Entry) {
    && k < |all| && e.line == all[k].index
    && (if IsMessage(all[k].item) then Some(e.role) == all[k].item.role && e.content == all[k].item.content
        else e.role == Assistant && e.content == "")
    && CallsFrom(all, k, next, e.calls)
  }

  function NextHead(at: seq<nat>, m: nat, n: nat): nat {
    if m + 1 < |at| then at[m + 1] else n
  }

  ghost predicate EntriesAt(all: seq<Line>, at: seq<nat>, n: nat, entries: seq<Entry>) {
    |entries| == |at| && forall m :: 0 <= m < |at| ==> EntryAt(all, at[m], NextHead(at, m, n), entries[m])
  }

  /** One entry for exactly each line that heads one, in order, each with the calls of the
      lines up to the next. */
  ghost predicate ShowsLog(all: seq<Line>, at: seq<nat>, entries: seq<Entry>) {
    Lists(at, |all|, HeadIn(all)) && EntriesAt(all, at, |all|, entries)
  }

  // ---- the first pass, by position ----

  lemma {:induction false} KnownIff(lines: seq<Line>, id: string)
    requires id != ""
    ensures id in KnownCalls(lines) <==> exists k :: 0 <= k < |lines| && lines[k].item.CallItem? && lines[k].item.id == id
  {
    if lines != [] {
      var init, last := lines[..|lines| - 1], lines[|lines| - 1];
      KnownIff(init, id);
      assert forall k :: 0 <= k < |init| ==> init[k] == lines[k];
      if last.item.CallItem? && last.item.id == id { assert lines[|lines| - 1].item.id == id; }
      if k :| 0 <= k < |lines| && lines[k].item.CallItem? && lines[k].item.id == id {
        if k < |init| { assert init[k].item.id == id; }
      }
    }
  }

  lemma ServesIff(all: seq<Line>, item: Item)
    ensures Eligible(item) <==> IsCall(item)
    ensures Orphan(KnownCalls(all), item) <==> IsLoose(all, item)
  {
    if item.EventItem? && item.event.callId != "" { KnownIff(all, item.event.callId); }
    hide KnownCalls;
  }

  lemma ResultsOfOneMore(lines: seq<Line>, id: string)
    requires lines != [] && id != ""
    ensures var init, item := lines[..|lines| - 1], lines[|lines| - 1].item;
            Of(ResultsIn(lines), id)
            == if ResultWith(item, id) then Of(ResultsIn(init), id) + [item.result] else Of(ResultsIn(init), id)
  {
    var init, item := lines[..|lines| - 1], lines[|lines| - 1].item;
    if item.OutputItem? && item.id != "" { OfSnoc(ResultsIn(init), Tagged(item.id, item.result), id); }
    hide Of;
  }

  lemma {:induction false} ResultsTotal(lines: seq<Line>, id: string)
    requires id != ""
    ensures |Of(ResultsIn(lines), id)| == ResultsWith(lines, id)
  {
    hide Of, ResultWith;
    if lines == [] {
      NoResults(id);
    } else {
      ResultsTotal(lines[..|lines| - 1], id);
      ResultsOfOneMore(lines, id);
    }
  }

  lemma NoResults(id: string)
    ensures Of(ResultsIn([]), id) == []
  {
  }

  lemma {:induction false} ResultsFound(lines: seq<Line>, id: string, k: nat)
    requires id != "" && k < |lines| && ResultWith(lines[k].item, id)
    ensures var n, rs := ResultsWith(lines[..k], id), Of(ResultsIn(lines), id); n < |rs| && rs[n] == lines[k].item.result
  {
    hide Of, ResultsIn, ResultsWith;
    var init := lines[..|lines| - 1];
    ResultsOfOneMore(lines, id);
    if k < |init| {
      ResultsFound(init, id, k);
      assert init[..k] == lines[..k];
    } else {
      ResultsTotal(init, id);
      assert lines[..k] == init;
    }
  }

  lemma NthIs(all: seq<Line>, id: string, n: nat)
    requires id != ""
    ensures IsNthResult(all, id, n, Nth(Of(ResultsIn(all), id), n))
  {
    hide Of, ResultsIn, ResultsWith;
    ResultsTotal(all, id);
    var r := Nth(Of(ResultsIn(all), id), n);
    forall k | 0 <= k < |all| && NthAt(all, id, n, k) ensures r == Some(all[k].item.result) { ResultsFound(all, id, k); }
  }

  lemma {:induction false} CallsCounted(lines: seq<Line>, id: string)
    ensures Count(CallIdsIn(lines), id) == CallsWith(lines, id)
  {
    if lines != [] {
      var init, item := lines[..|lines| - 1], lines[|lines| - 1].item;
      CallsCounted(init, id);
      if IsCall(item) { CountSnoc(CallIdsIn(init), item.id, id); }
      hide Count;
    }
  }

  lemma EventsOfOneMore(all: seq<Line>, n: nat, id: string)
    requires n < |all|
    ensures EventIn(all, id)(n) <==> EventWith(all[n].item, id)
    ensures EventsFor(all[..n + 1], id)
            == if EventWith(all[n].item, id) then EventsFor(all[..n], id) + [all[n].item.event] else EventsFor(all[..n], id)
  {
    assert all[..n + 1][..n] == all[..n];
  }

  lemma {:induction false} EventsFound(all: seq<Line>, n: nat, id: string) returns (at: seq<nat>)
    requires n <= |all|
    ensures Lists(at, n, EventIn(all, id)) && EventsListed(all, at, EventsFor(all[..n], id))
  {
    hide Lists, EventsFor, EventIn;
    if n == 0 {
      at := [];
      ListsNone(EventIn(all, id));
      NoEvents(all, id);
    } else {
      at := EventsFound(all, n - 1, id);
      ListsSnoc(at, n - 1, EventIn(all, id));
      EventsOfOneMore(all, n - 1, id);
      if EventWith(all[n - 1].item, id) { at := at + [n - 1]; }
    }
  }

  lemma NoEvents(all: seq<Line>, id: string)
    ensures EventsFor(all[..0], id) == []
  {
  }

  lemma EventsAreFor(all: seq<Line>, id: string)
    ensures EventsAre(all, id, EventsFor(all, id))
  {
    var at := EventsFound(all, |all|, id);
    assert all[..|all|] == all;
    hide Lists, EventsFor, EventIn, EventsListed;
  }

  lemma CallIs(all: seq<Line>, j: nat)
    requires j < |all|
    ensures IsCall(all[j].item) ==> Eligible(all[j].item) && CallAt(all, j, CallOf(all, CallIdsIn(all[..j]), all[j].item))
    ensures IsLoose(all, all[j].item) ==> CallAt(all, j, FromEvent(all[j].item.event, all[j].index))
  {
    hide ResultsIn, EventsFor, Of, Count, CallsWith, IsNthResult, EventsAre, CallIdsIn;
    var item := all[j].item;
    if IsCall(item) {
      EventsAreFor(all, item.id);
      CallsCounted(all[..j], item.id);
      NthIs(all, item.id, CallsWith(all[..j], item.id));
    }
  }

  // ---- the calls of an entry ----

  lemma ServedNext(all: seq<Line>, k: nat, n: nat)
    requires n < |all|
    ensures ServedFrom(all, k)(n) <==> k <= n && Serves(all, all[n].item)
  {
  }

  lemma CallsOfNone(all: seq<Line>, k: nat)
    requires k <= |all|
    ensures CallsFrom(all, k, k, [])
  {
    var cond := ServedFrom(all, k);
    assert Lists([], k, cond);
    assert CallsListed(all, [], []);
  }

  lemma CallsStay(all: seq<Line>, k: nat, n: nat, calls: seq<Call>)
    requires n < |all| && CallsFrom(all, k, n, calls) && !Serves(all, all[n].item)
    ensures CallsFrom(all, k, n + 1, calls)
  {
    hide Lists, CallsListed, Serves, ServedFrom;
    var at :| Lists(at, n, ServedFrom(all, k)) && CallsListed(all, at, calls);
    ServedNext(all, k, n);
    ListsSnoc(at, n, ServedFrom(all, k));
  }

  lemma CallsGrow(all: seq<Line>, k: nat, n: nat, calls: seq<Call>, c: Call)
    requires k <= n < |all| && CallsFrom(all, k, n, calls) && Serves(all, all[n].item) && CallAt(all, n, c)
    ensures CallsFrom(all, k, n + 1, CodexHistory.Shown(calls + [c]))
  {
    hide Lists, CallAt, Serves, ServedFrom;
    var at :| Lists(at, n, ServedFrom(all, k)) && CallsListed(all, at, calls);
    ServedNext(all, k, n);
    ListsSnoc(at, n, ServedFrom(all, k));
    assert CallsListed(all, at + [n], CodexHistory.Shown(calls + [c]));
  }

  // ---- the walk ----

  lemma OpenNext(all: seq<Line>, n: nat)
    requires n < |all|
    ensures OpenAt(all, n + 1) <==>
              || Serves(all, all[n].item) || (IsMessage(all[n].item) && all[n].item.role == Some(Assistant))
              || (OpenAt(all, n) && !(IsMessage(all[n].item) && all[n].item.role == Some(User)))
  {
    hide Serves;
    var item := all[n].item;
    var opens := Serves(all, item) || (IsMessage(item) && item.role == Some(Assistant));
    if opens { assert OpenSince(all, n, n + 1); }
    if OpenAt(all, n) && !(IsMessage(item) && item.role == Some(User)) {
      var j: nat :| j < n && OpenSince(all, j, n);
      assert OpenSince(all, j, n + 1);
    }
    if OpenAt(all, n + 1) && !opens {
      var j: nat :| j < n + 1 && OpenSince(all, j, n + 1);
      assert j < n && OpenSince(all, j, n);
    }
  }

  lemma HeadNext(all: seq<Line>, n: nat)
    requires n < |all|
    ensures HeadIn(all)(n) <==> Heads(all, n)
  {
  }

  /** After `n` lines: the entries are those of the heads so far, and the last one is open
      just when one should be. */
  ghost predicate Along(all: seq<Line>, n: nat, at: seq<nat>, p: Progress)
    requires n <= |all|
  {
    && Lists(at, n, HeadIn(all)) && EntriesAt(all, at, n, p.entries)
    && (p.open <==> OpenAt(all, n)) && (p.open ==> p.entries != [])
  }

  lemma AppendEntry(all: seq<Line>, at: seq<nat>, n: nat, es: seq<Entry>, e: Entry)
    requires EntriesAt(all, at, n, es) && EntryAt(all, n, n + 1, e)
    ensures EntriesAt(all, at + [n], n + 1, es + [e])
  {
    hide EntryAt;
    forall m | 0 <= m < |at| ensures EntryAt(all, (at + [n])[m], NextHead(at + [n], m, n + 1), (es + [e])[m]) {
      assert NextHead(at + [n], m, n + 1) == NextHead(at, m, n);
    }
  }

  lemma ChangeLast(all: seq<Line>, at: seq<nat>, n: nat, es: seq<Entry>, e: Entry)
    requires es != [] && EntriesAt(all, at, n, es) && EntryAt(all, at[|at| - 1], n + 1, e)
    ensures EntriesAt(all, at, n + 1, es[|es| - 1 := e])
  {
    hide EntryAt;
    forall m | 0 <= m < |at| ensures EntryAt(all, at[m], NextHead(at, m, n + 1), es[|es| - 1 := e][m]) {
      if m < |at| - 1 { assert NextHead(at, m, n + 1) == NextHead(at, m, n); }
    }
  }

  lemma LastOf(all: seq<Line>, at: seq<nat>, n: nat, es: seq<Entry>)
    requires es != [] && EntriesAt(all, at, n, es) && Lists(at, n, HeadIn(all))
    ensures at != [] && at[|at| - 1] < n && EntryAt(all, at[|at| - 1], n, es[|es| - 1])
  {
    hide EntryAt, HeadIn;
    assert NextHead(at, |at| - 1, n) == n;
  }

  lemma MessageStep(all: seq<Line>, n: nat, at: seq<nat>, p: Progress)
    requires n < |all| && Along(all, n, at, p) && IsMessage(all[n].item)
    ensures var item := all[n].item;
            Along(all, n + 1, at + [n],
                  Progress(p.entries + [Entry(all[n].index, item.role.value, item.content, [])], item.role.value.Assistant?))
  {
    hide Lists, EntriesAt, CallsFrom, HeadIn, OpenAt;
    ListsSnoc(at, n, HeadIn(all));
    HeadNext(all, n);
    OpenNext(all, n);
    CallsOfNone(all, n);
    CallsStay(all, n, n, []);
    AppendEntry(all, at, n, p.entries, Entry(all[n].index, all[n].item.role.value, all[n].item.content, []));
  }

  lemma ServeStep(all: seq<Line>, n: nat, at: seq<nat>, p: Progress, c: Call)
    requires n < |all| && Along(all, n, at, p) && Serves(all, all[n].item) && CallAt(all, n, c)
    ensures Along(all, n + 1, if p.open then at else at + [n], Attach(p, all[n].index, c))
  {
    hide Lists, EntriesAt, CallsFrom, HeadIn, OpenAt, CallAt, CodexHistory.Shown;
    ListsSnoc(at, n, HeadIn(all));
    HeadNext(all, n);
    OpenNext(all, n);
    if p.open {
      var last := p.entries[|p.entries| - 1];
      LastOf(all, at, n, p.entries);
      CallsGrow(all, at[|at| - 1], n, last.calls, c);
      ChangeLast(all, at, n, p.entries, last.(calls := CodexHistory.Shown(last.calls + [c])));
    } else {
      CallsOfNone(all, n);
      CallsGrow(all, n, n, [], c);
      assert [] + [c] == [c];
      AppendEntry(all, at, n, p.entries, Entry(all[n].index, Assistant, "", CodexHistory.Shown([c])));
    }
  }

  lemma IdleStep(all: seq<Line>, n: nat, at: seq<nat>, p: Progress)
    requires n < |all| && Along(all, n, at, p) && !IsMessage(all[n].item) && !Serves(all, all[n].item)
    ensures Along(all, n + 1, at, p)
  {
    hide Lists, HeadIn, OpenAt, CallsFrom, Serves;
    ListsSnoc(at, n, HeadIn(all));
    HeadNext(all, n);
    OpenNext(all, n);
    if p.entries != [] {
      var last := p.entries[|p.entries| - 1];
      LastOf(all, at, n, p.entries);
      CallsStay(all, at[|at| - 1], n, last.calls);
      ChangeLast(all, at, n, p.entries, last);
      assert p.entries[|p.entries| - 1 := last] == p.entries;
    }
  }

  lemma StepAlong(all: seq<Line>, n: nat, at: seq<nat>, p: Progress) returns (next: seq<nat>)
    requires n < |all| && Along(all, n, at, p)
    ensures Along(all, n + 1, next, Step(all, CallIdsIn(all[..n]), p, all[n]))
  {
    hide Along, Attach, CallAt, CallOf, KnownCalls, CallIdsIn;
    var item := all[n].item;
    ServesIff(all, item);
    CallIs(all, n);
    if IsMessage(item) {
      MessageStep(all, n, at, p);
      next := at + [n];
    } else if Serves(all, item) {
      ServeStep(all, n, at, p, if IsCall(item) then CallOf(all, CallIdsIn(all[..n]), item) else FromEvent(item.event, all[n].index));
      next := if p.open then at else at + [n];
    } else {
      IdleStep(all, n, at, p);
      next := at;
    }
  }

  lemma AlongNone(all: seq<Line>)
    ensures Along(all, 0, [], Walk(all, all[..0]))
  {
    ListsNone(HeadIn(all));
    hide Lists;
  }

  lemma WalkOneMore(all: seq<Line>, n: nat)
    requires n < |all|
    ensures Walk(all, all[..n + 1]) == Step(all, CallIdsIn(all[..n]), Walk(all, all[..n]), all[n])
  {
    assert all[..n + 1][..n] == all[..n];
  }

  lemma {:induction false} WalkAlong(all: seq<Line>, n: nat) returns (at: seq<nat>)
    requires n <= |all|
    ensures Along(all, n, at, Walk(all, all[..n]))
  {
    hide Along, Step, Walk, CallIdsIn;
    if n == 0 {
      at := [];
      AlongNone(all);
    } else {
      var before := WalkAlong(all, n - 1);
      WalkOneMore(all, n - 1);
      at := StepAlong(all, n - 1, before, Walk(all, all[..n - 1]));
    }
  }

  /** The history of a log: each message with a role has exactly one entry, with its line,
      role and content; the only other entries are assistant entries without content, on
      the lines whose call or event found no entry open; and each entry carries the calls
      of the lines up to the next one, in order, up to 256. */
  lemma HistoryShowsLog(lines: seq<Line>) returns (at: seq<nat>)
    ensures ShowsLog(lines, at, History(lines))
  {
    at := WalkAlong(lines, |lines|);
    assert lines[..|lines|] == lines;
    hide Walk, Lists, EntriesAt;
  }
}
