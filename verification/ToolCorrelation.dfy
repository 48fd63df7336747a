/** Which tool result belongs to which tool call: the history builders keep one queue of
    results per call id, and take from its front.  That is the same as matching by
    position: the k-th call with an id receives the k-th result with that id. */
module ToolCorrelation {
  import opened Options

  datatype ToolResult = ToolResult(output: string, failed: bool)

  /** A tool result block or output line, in log order. */
  datatype Tagged = Tagged(id: string, result: ToolResult)

  /** A tool call that has an id and a name. */
  datatype RawCall = RawCall(id: string, name: string, input: string)

  // ---- matching by position ----

  /** The results with this id, in order. */
  function Of(results: seq<Tagged>, id: string): (r: seq<ToolResult>)
    ensures |r| <= |results|
  {
    if results == [] then []
    else
      var init, last := Of(results[..|results| - 1], id), results[|results| - 1];
      if last.id == id then init + [last.result] else init
  }

  /** How many calls with this id came before. */
  function Count(ids: seq<string>, id: string): nat {
    if ids == [] then 0 else Count(ids[..|ids| - 1], id) + if ids[|ids| - 1] == id then 1 else 0
  }

  function Nth(rs: seq<ToolResult>, k: nat): Option<ToolResult> {
    if k < |rs| then Some(rs[k]) else None
  }

  function Ids(calls: seq<RawCall>): (r: seq<string>)
    ensures |r| == |calls|
    ensures forall i :: 0 <= i < |r| ==> r[i] == calls[i].id
  {
    if calls == [] then [] else Ids(calls[..|calls| - 1]) + [calls[|calls| - 1].id]
  }

  /** The result of a call that comes after the calls `before`. */
  function ResultFor(results: seq<Tagged>, before: seq<string>, id: string): Option<ToolResult> {
    Nth(Of(results, id), Count(before, id))
  }

  lemma OfSnoc(results: seq<Tagged>, t: Tagged, id: string)
    ensures Of(results + [t], id) == if t.id == id then Of(results, id) + [t.result] else Of(results, id)
  {
    assert (results + [t])[..|results|] == results;
  }

  lemma CountSnoc(ids: seq<string>, x: string, id: string)
    ensures Count(ids + [x], id) == Count(ids, id) + if x == id then 1 else 0
  {
    assert (ids + [x])[..|ids|] == ids;
  }

  /** More results never change an earlier one, they only come after. */
  lemma {:induction false} OfExtends(results: seq<Tagged>, more: seq<Tagged>, id: string)
    ensures |Of(results, id)| <= |Of(results + more, id)|
    ensures Of(results + more, id)[..|Of(results, id)|] == Of(results, id)
  {
    hide Of;
    if more == [] {
      assert results + more == results;
    } else {
      var init, last := more[..|more| - 1], more[|more| - 1];
      OfExtends(results, init, id);
      assert results + more == (results + init) + [last];
      OfSnoc(results + init, last, id);
    }
  }

  /** A result once found stays, however the log grows. */
  lemma ResultStays(results: seq<Tagged>, more: seq<Tagged>, before: seq<string>, id: string)
    ensures ResultFor(results, before, id).Some? ==>
              ResultFor(results + more, before, id) == ResultFor(results, before, id)
  {
    OfExtends(results, more, id);
    hide Of, Count;
    var a, b := Of(results, id), Of(results + more, id);
    if Count(before, id) < |a| { assert b[..|a|][Count(before, id)] == a[Count(before, id)]; }
  }

  // ---- the queues ----

  type Queues = map<string, seq<ToolResult>>

  function Queue(q: Queues, id: string): seq<ToolResult> {
    if id in q then q[id] else []
  }

  /** The queues hold, for every id, its results without the first few that were taken. */
  ghost predicate Holds(q: Queues, results: seq<Tagged>, taken: seq<string>) {
    forall id: string :: Queue(q, id) == Drop(Of(results, id), Count(taken, id))
  }

  function Drop(rs: seq<ToolResult>, k: nat): seq<ToolResult> {
    if k < |rs| then rs[k..] else []
  }

  /** `pushToolResult`: append to the queue of the id, or start one. */
  method PushToolResult(q: Queues, t: Tagged) returns (r: Queues)
    ensures forall id: string :: Queue(r, id) == if id == t.id then Queue(q, id) + [t.result] else Queue(q, id)
  {
    if t.id in q {
      r := q[t.id := q[t.id] + [t.result]];
    } else {
      r := q[t.id := [t.result]];
    }
  }

  /** `consumeToolResult`: take from the front; an empty queue leaves the map. */
  method ConsumeToolResult(q: Queues, id: string) returns (r: Queues, result: Option<ToolResult>)
    ensures result == Nth(Queue(q, id), 0)
    ensures forall x: string :: Queue(r, x) == if x == id then Drop(Queue(q, x), 1) else Queue(q, x)
  {
    if id !in q || |q[id]| == 0 { return q, None; }
    result := Some(q[id][0]);
    if |q[id]| == 1 {
      r := q - {id};
    } else {
      r := q[id := q[id][1..]];
    }
  }

  lemma PushHolds(q: Queues, r: Queues, results: seq<Tagged>, t: Tagged)
    requires Holds(q, results, [])
    requires forall id: string :: Queue(r, id) == if id == t.id then Queue(q, id) + [t.result] else Queue(q, id)
    ensures Holds(r, results + [t], [])
  {
    forall id: string ensures Queue(r, id) == Drop(Of(results + [t], id), Count([], id)) {
      OfSnoc(results, t, id);
      hide Of, Queue;
    }
  }

  /** Taking from the front is taking the next in position. */
  lemma ConsumeHolds(q: Queues, r: Queues, results: seq<Tagged>, taken: seq<string>, id: string)
    requires Holds(q, results, taken)
    requires forall x: string :: Queue(r, x) == if x == id then Drop(Queue(q, x), 1) else Queue(q, x)
    ensures Nth(Queue(q, id), 0) == ResultFor(results, taken, id)
    ensures Holds(r, results, taken + [id])
  {
    hide Of, Queue;
    forall x: string ensures Queue(r, x) == Drop(Of(results, x), Count(taken + [id], x)) {
      CountSnoc(taken, id, x);
      hide Count;
    }
  }

  // ---- the calls of one line ----

  datatype ToolCall = ToolCall(id: string, name: string, input: string, result: Option<ToolResult>)

  /** What the calls of a line receive when the calls `before` have been served. */
  function Matched(results: seq<Tagged>, before: seq<string>, calls: seq<RawCall>): (r: seq<ToolCall>)
    ensures |r| == |calls|
  {
    if calls == [] then []
    else
      var init, last := calls[..|calls| - 1], calls[|calls| - 1];
      Matched(results, before, init)
      + [ToolCall(last.id, last.name, last.input, ResultFor(results, before + Ids(init), last.id))]
  }

  /** The k-th call with an id receives the k-th result with that id. */
  lemma {:induction false} KthCallGetsKthResult(results: seq<Tagged>, before: seq<string>, calls: seq<RawCall>, j: nat)
    requires j < |calls|
    ensures var call := Matched(results, before, calls)[j];
            && call.id == calls[j].id && call.name == calls[j].name && call.input == calls[j].input
            && call.result == Nth(Of(results, calls[j].id), Count(before + Ids(calls)[..j], calls[j].id))
  {
    var init := calls[..|calls| - 1];
    assert Ids(calls)[..|init|] == Ids(init);
    if j < |init| {
      KthCallGetsKthResult(results, before, init, j);
      assert Ids(calls)[..j] == Ids(init)[..j];
    }
  }

  /** More results only fill what was missing. */
  lemma {:induction false} MatchedOnlyFills(results: seq<Tagged>, more: seq<Tagged>, before: seq<string>, calls: seq<RawCall>, j: nat)
    requires j < |calls|
    ensures var a, b := Matched(results, before, calls)[j], Matched(results + more, before, calls)[j];
            b == a.(result := b.result) && (a.result.Some? ==> b.result == a.result)
  {
    KthCallGetsKthResult(results, before, calls, j);
    KthCallGetsKthResult(results + more, before, calls, j);
    ResultStays(results, more, before + Ids(calls)[..j], calls[j].id);
    hide Matched, Of, Count;
  }

  method CorrelateCalls(q: Queues, calls: seq<RawCall>, ghost results: seq<Tagged>, ghost before: seq<string>)
    returns (r: Queues, out: seq<ToolCall>)
    requires Holds(q, results, before)
    ensures out == Matched(results, before, calls)
    ensures Holds(r, results, before + Ids(calls))
  {
    hide Holds, ResultFor, Queue, Of, Count;
    r, out := q, [];
    assert before + Ids([]) == before;
    var i := 0;
    while i < |calls|
      invariant 0 <= i <= |calls| && out == Matched(results, before, calls[..i])
      invariant Holds(r, results, before + Ids(calls[..i]))
    {
      var next, result := ConsumeToolResult(r, calls[i].id);
      ConsumeHolds(r, next, results, before + Ids(calls[..i]), calls[i].id);
      r := next;
      out := out + [ToolCall(calls[i].id, calls[i].name, calls[i].input, result)];
      assert calls[..i + 1][..i] == calls[..i];
      assert before + Ids(calls[..i + 1]) == before + Ids(calls[..i]) + [calls[i].id];
      i := i + 1;
    }
    assert calls[..i] == calls;
  }
}
