/** A growing Claude session log, read page by page: parse the lines, build the entries,
    bound each, and page. Lines appended between two requests fill outputs that were
    missing, which can move where an older page begins but loses no entry. */
module HistoryPipeline {
  import opened Options
  import opened HistoryLines
  import opened HistoryPaging
  import opened HistoryLimits
  import opened CanonicalText
  import C = ClaudeHistory
  import B = EntryBounding
  import E = EntrySizes

  function LinesOf<R>(records: seq<Numbered<R>>, lineOf: Numbered<R> -> C.Line): (r: seq<C.Line>)
    ensures |r| == |records| && forall i :: 0 <= i < |r| ==> r[i] == lineOf(records[i])
  {
    if records == [] then [] else LinesOf(records[..|records| - 1], lineOf) + [lineOf(records[|records| - 1])]
  }

  /** `lineOf` reads a record, its line number included, as a line of the log. */
  function EntriesOf<R>(raw: seq<string>, parse: string -> Option<R>, lineOf: Numbered<R> -> C.Line): seq<C.Entry> {
    C.History(LinesOf(Records(raw, parse), lineOf))
  }

  /** `bound` makes of an entry what is sent. */
  function Bounded<T>(entries: seq<C.Entry>, bound: C.Entry -> T): (r: seq<T>)
    ensures |r| == |entries| && forall i :: 0 <= i < |r| ==> r[i] == bound(entries[i])
  {
    if entries == [] then [] else Bounded(entries[..|entries| - 1], bound) + [bound(entries[|entries| - 1])]
  }

  /** Whole lines appended to the log add entries at the end, and change earlier ones only
      by filling outputs that were missing. */
  lemma AppendedLogOnlyFills<R>(raw: seq<string>, more: seq<string>, parse: string -> Option<R>, lineOf: Numbered<R> -> C.Line)
    ensures var a, b := EntriesOf(raw, parse, lineOf), EntriesOf(raw + more, parse, lineOf);
            |a| <= |b| && forall i :: 0 <= i < |a| ==> C.OnlyFilled(a[i], b[i])
  {
    RecordsOfAppended(raw, more, parse);
    var r, r2 := Records(raw, parse), Records(raw + more, parse);
    var l, l2 := LinesOf(r, lineOf), LinesOf(r2, lineOf);
    hide Records, LinesOf, C.OnlyFilled, C.History;
    assert forall i :: 0 <= i < |r| ==> r2[..|r|][i] == r2[i];
    assert l2 == l + l2[|l|..];
    C.AppendingOnlyFills(l, l2[|l|..]);
  }

  /** An older cursor on other entries, at least as many: it names the same position. The
      page still ends there; it begins elsewhere exactly if the old range no longer is the
      longest that fits, and not earlier if no entry before the position shrank. */
  lemma PageAfterChange<T>(p: Pager<T>, before: seq<T>, after: seq<T>, scope: string, cursor: string, limit: Option<int>,
                           q: Page<T>, r: Page<T>) returns (s: nat, t: nat, b: nat)
    requires |before| <= |after|
    requires IsPage(p, before, scope, Some(cursor), limit, Some(q)) && IsPage(p, after, scope, Some(cursor), limit, Some(r))
    ensures s <= b && t <= b && b <= |before| && q.entries == before[s..b] && r.entries == after[t..b]
    ensures Boundary(p, before, scope, Some(cursor)) == Some(b) == Boundary(p, after, scope, Some(cursor))
    ensures t <= s <==> Fits(p.size, after[s..b], ClampLimit(limit))
    ensures (forall i :: 0 <= i < b ==> p.size(before[i]) <= p.size(after[i])) ==> s <= t
  {
    hide IsPage, Fits, Total, Boundary;
    s := StartOf(p, before, scope, Some(cursor), limit, q);
    t := StartOf(p, after, scope, Some(cursor), limit, r);
    SameBoundary(p, before, after, scope, cursor);
    b := Boundary(p, before, scope, Some(cursor)).value;
    StartIsLeast(p.size, after, b, ClampLimit(limit), t, s);
    StartIsLeast(p.size, before, b, ClampLimit(limit), s, t);
    if forall i :: 0 <= i < b ==> p.size(before[i]) <= p.size(after[i]) {
      FitsShrunk(p.size, before[t..b], after[t..b], ClampLimit(limit));
    }
  }

  lemma FitsShrunk<T>(size: T -> nat, a: seq<T>, b: seq<T>, limit: nat)
    requires |a| == |b| && forall i :: 0 <= i < |a| ==> size(a[i]) <= size(b[i])
    ensures Fits(size, b, limit) ==> Fits(size, a, limit)
  {
    TotalGrows(size, a, b);
  }

  lemma {:induction false} TotalGrows<T>(size: T -> nat, a: seq<T>, b: seq<T>)
    requires |a| == |b| && forall i :: 0 <= i < |a| ==> size(a[i]) <= size(b[i])
    ensures Total(size, a) <= Total(size, b)
  {
    if a != [] { TotalGrows(size, a[1..], b[1..]); }
  }

  lemma SameBoundary<T>(p: Pager<T>, a: seq<T>, b: seq<T>, scope: string, cursor: string)
    requires |a| <= |b| && Boundary(p, a, scope, Some(cursor)).Some?
    ensures Boundary(p, b, scope, Some(cursor)) == Boundary(p, a, scope, Some(cursor))
    ensures Boundary(p, a, scope, Some(cursor)).value <= |a|
  {
  }

  // ---- a log that grows between requests ----

  /** A client that follows cursors while the entries change: the j-th request meets
      `states[j]`. What it has collected, oldest first. */
  ghost predicate FollowsOver<T(!new)>(p: Pager<T>, states: seq<seq<T>>, scope: string, cursor: string, limits: seq<Option<int>>, collected: seq<T>)
    requires |limits| == |states|
    decreases |limits|
  {
    if limits == [] then collected == []
    else
      exists page: Page<T>, rest: seq<T> ::
        && IsPage(p, states[0], scope, Some(cursor), limits[0], Some(page))
        && collected == rest + page.entries
        && (if page.next.None? then rest == [] else FollowsOver(p, states[1..], scope, page.next.value, limits[1..], rest))
  }

  /** Each entry before the position of the cursor arrives once and in order, as it was when
      its page was asked for. */
  lemma {:induction false} FollowingChangesYieldsAll<T(!new)>(
      p: Pager<T>, states: seq<seq<T>>, scope: string, cursor: string, limits: seq<Option<int>>, collected: seq<T>, b: nat)
    requires ReadsCursors(p) && |limits| == |states| && b <= |limits|
    requires forall j :: 0 <= j < |states| ==> Boundary(p, states[j], scope, Some(cursor)) == Some(b)
    requires FollowsOver(p, states, scope, cursor, limits, collected)
    ensures |collected| == b
    ensures forall i :: 0 <= i < |collected| ==> Arrived(states, i, collected[i])
    decreases |limits|
  {
    hide IsPage, Total, Fits, EncodeCursor, DecodeCursor, ReadsCursors, ClampLimit, Boundary;
    if limits != [] {
      var page: Page<T>, rest: seq<T> :|
        && IsPage(p, states[0], scope, Some(cursor), limits[0], Some(page))
        && collected == rest + page.entries
        && (if page.next.None? then rest == [] else FollowsOver(p, states[1..], scope, page.next.value, limits[1..], rest));
      var s := StartOf(p, states[0], scope, Some(cursor), limits[0], page);
      if s > 0 {
        NextBoundary(p, states, scope, cursor, s, b);
        FollowingChangesYieldsAll(p, states[1..], scope, page.next.value, limits[1..], rest, s);
      }
      forall i | 0 <= i < |collected| ensures Arrived(states, i, collected[i]) {
        if i < |rest| {
          var j :| 0 <= j < |states[1..]| && i < |states[1..][j]| && states[1..][j][i] == rest[i];
          assert states[j + 1][i] == collected[i];
        } else {
          assert states[0][i] == collected[i];
        }
      }
    }
  }

  /** In some state the entry at place `i` was this one. */
  ghost predicate Arrived<T>(states: seq<seq<T>>, i: nat, e: T) {
    exists j :: 0 <= j < |states| && i < |states[j]| && states[j][i] == e
  }

  /** The cursor handed out names its position in all later states that reach so far. */
  lemma NextBoundary<T>(p: Pager<T>, states: seq<seq<T>>, scope: string, cursor: string, s: nat, b: nat)
    requires ReadsCursors(p) && s <= b
    requires forall j :: 0 <= j < |states| ==> Boundary(p, states[j], scope, Some(cursor)) == Some(b)
    ensures forall j :: 1 <= j < |states| ==>
              Boundary(p, states[j], scope, Some(EncodeCursor(s, p.sigOf(scope)))) == Some(s)
  {
    forall j | 1 <= j < |states|
      ensures Boundary(p, states[j], scope, Some(EncodeCursor(s, p.sigOf(scope)))) == Some(s)
    {
      CursorRoundTrip(p, s, p.sigOf(scope), |states[j]|, p.sigOf(scope));
      hide ReadsCursors, EncodeCursor, DecodeCursor;
    }
  }

  /** Each log of a run extends the first one by whole lines. */
  ghost predicate Extends(raws: seq<seq<string>>, raw: seq<string>) {
    forall j :: 0 <= j < |raws| ==> raw <= raws[j]
  }

  /** A client that took a cursor of a log and follows it while lines are appended before
      any of its requests: it receives every earlier entry exactly once and in order, each
      as it was in the first log but for outputs filled meanwhile. */
  lemma FollowingWhileGrowing<R, T(!new)>(
      p: Pager<T>, raw: seq<string>, raws: seq<seq<string>>, parse: string -> Option<R>, lineOf: Numbered<R> -> C.Line,
      bound: C.Entry -> T, states: seq<seq<T>>, scope: string, cursor: string, limits: seq<Option<int>>, collected: seq<T>, b: nat)
    requires ReadsCursors(p) && Extends(raws, raw) && |limits| == |states| == |raws| && b <= |limits|
    requires forall j :: 0 <= j < |raws| ==> states[j] == Bounded(EntriesOf(raws[j], parse, lineOf), bound)
    requires Boundary(p, Bounded(EntriesOf(raw, parse, lineOf), bound), scope, Some(cursor)) == Some(b)
    requires FollowsOver(p, states, scope, cursor, limits, collected)
    ensures var before := EntriesOf(raw, parse, lineOf);
            && |collected| == b <= |before|
            && forall i :: 0 <= i < |collected| ==>
                 exists e: C.Entry :: collected[i] == bound(e) && C.OnlyFilled(before[i], e)
  {
    var before := EntriesOf(raw, parse, lineOf);
    forall j | 0 <= j < |states| ensures StateKeeps(p, before, states[j], bound, scope, cursor, b) {
      GrownState(p, raw, raws[j], parse, lineOf, bound, states[j], scope, cursor, b);
    }
    hide EntriesOf, Boundary, FollowsOver, ReadsCursors, C.OnlyFilled, Bounded;
    assert b <= |before| by { SameBoundary(p, Bounded(before, bound), Bounded(before, bound), scope, cursor); }
    FollowingChangesYieldsAll(p, states, scope, cursor, limits, collected, b);
    forall i | 0 <= i < |collected| ensures exists e: C.Entry :: collected[i] == bound(e) && C.OnlyFilled(before[i], e) {
      assert Arrived(states, i, collected[i]);
      var j :| 0 <= j < |states| && i < |states[j]| && states[j][i] == collected[i];
      assert StateKeeps(p, before, states[j], bound, scope, cursor, b);
    }
  }

  lemma GrownState<R, T>(
      p: Pager<T>, raw: seq<string>, now: seq<string>, parse: string -> Option<R>, lineOf: Numbered<R> -> C.Line,
      bound: C.Entry -> T, state: seq<T>, scope: string, cursor: string, b: nat)
    requires raw <= now && state == Bounded(EntriesOf(now, parse, lineOf), bound)
    requires Boundary(p, Bounded(EntriesOf(raw, parse, lineOf), bound), scope, Some(cursor)) == Some(b)
    ensures StateKeeps(p, EntriesOf(raw, parse, lineOf), state, bound, scope, cursor, b)
  {
    hide EntriesOf, Boundary, C.OnlyFilled;
    var more := now[|raw|..];
    assert now == raw + more;
    AppendedLogOnlyFills(raw, more, parse, lineOf);
    SameBoundary(p, Bounded(EntriesOf(raw, parse, lineOf), bound), state, scope, cursor);
  }

  /** The state has the earlier entries at their places, filled at most, and the cursor names
      the same position in it. */
  ghost predicate StateKeeps<T>(p: Pager<T>, before: seq<C.Entry>, state: seq<T>, bound: C.Entry -> T, scope: string, cursor: string, b: nat) {
    && Boundary(p, state, scope, Some(cursor)) == Some(b) && |before| <= |state|
    && forall i :: 0 <= i < |before| ==> exists e: C.Entry :: state[i] == bound(e) && C.OnlyFilled(before[i], e)
  }

  // ---- pages of built entries ----

  /** An entry as it is sent: what bounding makes of an entry that a builder made. */
  ghost predicate Sendable<Call(!new)>(call: Call -> Text, t: (E.Head, B.Entry<Call>)) {
    exists e: B.Entry<Call> :: E.Built(t.0, e) && B.IsBounded(E.SizeIn(t.0, call), e, t.1)
  }

  /** Every page of such entries, with its commas and a bounded envelope, fits the frame. */
  lemma BuiltPageFitsFrame<Call(!new)>(
      p: Pager<(E.Head, B.Entry<Call>)>, call: Call -> Text, entries: seq<(E.Head, B.Entry<Call>)>, scope: string,
      cursor: Option<string>, limit: Option<int>, page: Option<Page<(E.Head, B.Entry<Call>)>>, envelope: nat)
    requires forall t :: p.size(t) == E.EntryBytes(t.0, call, t.1)
    requires forall i :: 0 <= i < |entries| ==> Sendable(call, entries[i])
    requires IsPage(p, entries, scope, cursor, limit, page) && page.Some? && envelope <= 16_384 - HISTORY_PAGE_MAX
    ensures var n := |page.value.entries|;
            && n <= HISTORY_PAGE_MAX && (page.value.entries == [] ==> page.value.next.None?)
            && Total(p.size, page.value.entries) + (if n > 0 then n - 1 else 0) + envelope <= MAX_FRAME_BYTES
  {
    forall i | 0 <= i < |entries| ensures p.size(entries[i]) <= HISTORY_ENTRY_BYTE_MAX {
      var t := entries[i];
      assert Sendable(call, t);
      var e :| E.Built(t.0, e) && B.IsBounded(E.SizeIn(t.0, call), e, t.1);
      E.BuiltEntryIsBounded(t.0, call, e, t.1);
      hide E.EntryBytes, E.Built, B.IsBounded;
    }
    hide IsPage, Sendable, E.EntryBytes;
    PageFitsFrame(p, entries, scope, cursor, limit, page, envelope);
  }
}
