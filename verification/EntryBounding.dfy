/** Keeping one history entry under the byte cap: drop tool calls from the end, count
    them as omitted, and if that is not enough cut the content. */
module EntryBounding {
  import opened HistoryLimits
  import opened CanonicalText

  datatype Kind = Image | Document | Thinking | Fallback | Other

  datatype Omitted = Omitted(kind: Kind, count: nat)

  /** An absent list of calls or of omissions is the empty one. */
  datatype Entry<C> = Entry(content: Text, truncated: bool, calls: seq<C>, omitted: seq<Omitted>)

  /** The byte length of a serialized entry. */
  type Size<!C> = Entry<C> -> nat

  function Rank(k: Kind): nat {
    match k
    case Image => 0
    case Document => 1
    case Thinking => 2
    case Fallback => 3
    case Other => 4
  }

  // ---- counting omissions ----

  /** How much of a kind is recorded as omitted. */
  function CountOf(omitted: seq<Omitted>, k: Kind): nat {
    if omitted == [] then 0
    else CountOf(omitted[..|omitted| - 1], k) + if omitted[|omitted| - 1].kind == k then omitted[|omitted| - 1].count else 0
  }

  function FindOther(omitted: seq<Omitted>): (i: int)
    ensures -1 <= i < |omitted|
    ensures i >= 0 ==> omitted[i].kind.Other?
    ensures i < 0 ==> forall j :: 0 <= j < |omitted| ==> !omitted[j].kind.Other?
  {
    if omitted == [] then -1
    else
      var i := FindOther(omitted[..|omitted| - 1]);
      if i >= 0 then i else if omitted[|omitted| - 1].kind.Other? then |omitted| - 1 else -1
  }

  function Insert(o: Omitted, sorted: seq<Omitted>): (r: seq<Omitted>)
    ensures |r| == |sorted| + 1
  {
    if sorted == [] || Rank(sorted[|sorted| - 1].kind) <= Rank(o.kind) then sorted + [o]
    else Insert(o, sorted[..|sorted| - 1]) + [sorted[|sorted| - 1]]
  }

  /** The stable sort by the fixed order of kinds. */
  function SortOmitted(omitted: seq<Omitted>): seq<Omitted> {
    if omitted == [] then []
    else Insert(omitted[|omitted| - 1], SortOmitted(omitted[..|omitted| - 1]))
  }

  function AddOther(omitted: seq<Omitted>, count: nat): seq<Omitted> {
    var i := FindOther(omitted);
    SortOmitted(if i >= 0 then omitted[i := Omitted(Other, omitted[i].count + count)] else omitted + [Omitted(Other, count)])
  }

  function IncrementOmittedOther<C>(e: Entry<C>, count: nat): Entry<C> {
    if count == 0 then e else e.(omitted := AddOther(e.omitted, count))
  }

  lemma CountSnoc(omitted: seq<Omitted>, o: Omitted, k: Kind)
    ensures CountOf(omitted + [o], k) == CountOf(omitted, k) + if o.kind == k then o.count else 0
  {
    assert (omitted + [o])[..|omitted|] == omitted;
  }

  lemma {:induction false} CountInsert(o: Omitted, sorted: seq<Omitted>, k: Kind)
    ensures CountOf(Insert(o, sorted), k) == CountOf(sorted, k) + if o.kind == k then o.count else 0
  {
    if sorted == [] || Rank(sorted[|sorted| - 1].kind) <= Rank(o.kind) {
      CountSnoc(sorted, o, k);
    } else {
      var init, last := sorted[..|sorted| - 1], sorted[|sorted| - 1];
      CountInsert(o, init, k);
      CountSnoc(Insert(o, init), last, k);
    }
  }

  lemma {:induction false} CountSort(omitted: seq<Omitted>, k: Kind)
    ensures CountOf(SortOmitted(omitted), k) == CountOf(omitted, k)
  {
    if omitted != [] {
      CountSort(omitted[..|omitted| - 1], k);
      CountInsert(omitted[|omitted| - 1], SortOmitted(omitted[..|omitted| - 1]), k);
    }
  }

  lemma {:induction false} CountUpdate(omitted: seq<Omitted>, i: nat, o: Omitted, k: Kind)
    requires i < |omitted| && o.kind == omitted[i].kind && o.count >= omitted[i].count
    ensures CountOf(omitted[i := o], k) == CountOf(omitted, k) + if o.kind == k then o.count - omitted[i].count else 0
  {
    var n := |omitted| - 1;
    if i < n {
      CountUpdate(omitted[..n], i, o, k);
      assert omitted[i := o][..n] == omitted[..n][i := o];
    } else {
      assert omitted[i := o][..n] == omitted[..n];
    }
  }

  /** Exactly `count` more of the kind "other", and no other kind touched. */
  lemma AddOtherCounts(omitted: seq<Omitted>, count: nat, k: Kind)
    ensures CountOf(AddOther(omitted, count), k) == CountOf(omitted, k) + if k.Other? then count else 0
  {
    var i := FindOther(omitted);
    var grown := if i >= 0 then omitted[i := Omitted(Other, omitted[i].count + count)] else omitted + [Omitted(Other, count)];
    CountSort(grown, k);
    if i >= 0 {
      CountUpdate(omitted, i, Omitted(Other, omitted[i].count + count), k);
    } else {
      CountSnoc(omitted, Omitted(Other, count), k);
    }
  }

  /** The fixed order of kinds. */
  const OMITTED_ORDER: seq<Kind> := [Image, Document, Thinking, Fallback, Other]

  /** No kind stands before one that comes earlier in the order. */
  ghost predicate InOrder(omitted: seq<Omitted>) {
    forall i, j, p, q :: 0 <= i < j < |omitted| && 0 <= p < q < 5 ==>
      !(omitted[i].kind == OMITTED_ORDER[q] && omitted[j].kind == OMITTED_ORDER[p])
  }

  function OfKind(omitted: seq<Omitted>, k: Kind): seq<Omitted> {
    if omitted == [] then []
    else
      var init, last := OfKind(omitted[..|omitted| - 1], k), omitted[|omitted| - 1];
      if last.kind == k then init + [last] else init
  }

  lemma OfKindSnoc(omitted: seq<Omitted>, o: Omitted, k: Kind)
    ensures OfKind(omitted + [o], k) == if o.kind == k then OfKind(omitted, k) + [o] else OfKind(omitted, k)
  {
    assert (omitted + [o])[..|omitted|] == omitted;
  }

  lemma RankIsPlace(k: Kind, p: nat)
    requires p < 5
    ensures OMITTED_ORDER[p] == k <==> Rank(k) == p
  {
  }

  ghost predicate Ranked(omitted: seq<Omitted>) {
    forall i, j :: 0 <= i < j < |omitted| ==> Rank(omitted[i].kind) <= Rank(omitted[j].kind)
  }

  lemma RankedIsInOrder(omitted: seq<Omitted>)
    requires Ranked(omitted)
    ensures InOrder(omitted)
  {
    forall i, j, p, q | 0 <= i < j < |omitted| && 0 <= p < q < 5
      ensures !(omitted[i].kind == OMITTED_ORDER[q] && omitted[j].kind == OMITTED_ORDER[p])
    {
      RankIsPlace(omitted[i].kind, q);
      RankIsPlace(omitted[j].kind, p);
    }
  }

  lemma RankedSnoc(init: seq<Omitted>, last: Omitted)
    ensures Ranked(init + [last]) <==> Ranked(init) && forall o :: o in init ==> Rank(o.kind) <= Rank(last.kind)
  {
    hide Rank;
    var all := init + [last];
    if Ranked(all) {
      forall o | o in init ensures Rank(o.kind) <= Rank(last.kind) {
        var i :| 0 <= i < |init| && init[i] == o;
        assert all[i] == o && all[|init|] == last;
      }
      assert forall i :: 0 <= i < |init| ==> init[i] == all[i];
    }
  }

  lemma {:induction false} InsertRanked(o: Omitted, sorted: seq<Omitted>)
    requires Ranked(sorted)
    ensures Ranked(Insert(o, sorted)) && forall x :: x in Insert(o, sorted) <==> x == o || x in sorted
  {
    hide Rank, Ranked;
    if sorted == [] {
      NothingRanked();
      RankedSnoc(sorted, o);
      assert sorted + [o] == [o];
    } else {
      var init, last := sorted[..|sorted| - 1], sorted[|sorted| - 1];
      assert sorted == init + [last];
      RankedSnoc(init, last);
      RankedSnoc(sorted, o);
      if Rank(last.kind) > Rank(o.kind) {
        InsertRanked(o, init);
        RankedSnoc(Insert(o, init), last);
      }
    }
  }

  lemma {:induction false} InsertKeeps(o: Omitted, sorted: seq<Omitted>, k: Kind)
    requires Ranked(sorted)
    ensures OfKind(Insert(o, sorted), k) == OfKind(sorted + [o], k)
  {
    hide OfKind;
    if sorted != [] && Rank(sorted[|sorted| - 1].kind) > Rank(o.kind) {
      var init, last := sorted[..|sorted| - 1], sorted[|sorted| - 1];
      assert sorted == init + [last] && last.kind != o.kind;
      assert Ranked(init) by { RankedSnoc(init, last); }
      hide Rank, Ranked;
      InsertKeeps(o, init, k);
      OfKindSnoc(Insert(o, init), last, k);
      OfKindSnoc(init, o, k);
      OfKindSnoc(init, last, k);
      OfKindSnoc(sorted, o, k);
    }
  }

  lemma {:induction false} SortKeeps(omitted: seq<Omitted>, k: Kind)
    ensures Ranked(SortOmitted(omitted)) && OfKind(SortOmitted(omitted), k) == OfKind(omitted, k)
  {
    hide Ranked, Insert, OfKind;
    if omitted == [] {
      NothingRanked();
    } else {
      var init, last := omitted[..|omitted| - 1], omitted[|omitted| - 1];
      SortKeeps(init, k);
      InsertRanked(last, SortOmitted(init));
      InsertKeeps(last, SortOmitted(init), k);
      OfKindSnoc(SortOmitted(init), last, k);
      OfKindSnoc(init, last, k);
      assert omitted == init + [last];
    }
  }

  lemma NothingRanked()
    ensures Ranked([])
  {
  }

  lemma {:induction false} OfKindUpdated(omitted: seq<Omitted>, k: Kind, count: nat)
    ensures var i := FindOther(omitted);
            i >= 0 ==>
              var r, os := OfKind(omitted[i := Omitted(Other, omitted[i].count + count)], k), OfKind(omitted, k);
              if k.Other? then os != [] && r == os[0 := Omitted(Other, os[0].count + count)] else r == os
  {
    if omitted != [] {
      var n := |omitted| - 1;
      var init := omitted[..n];
      var i := FindOther(omitted);
      if FindOther(init) >= 0 {
        OfKindUpdated(init, k, count);
        assert omitted[i := Omitted(Other, omitted[i].count + count)][..n] == init[i := Omitted(Other, init[i].count + count)];
      } else if i == n {
        NoneOfOther(init);
        assert omitted[n := Omitted(Other, omitted[n].count + count)][..n] == init;
      }
    }
  }

  lemma {:induction false} NoneOfOther(omitted: seq<Omitted>)
    requires FindOther(omitted) < 0
    ensures OfKind(omitted, Other) == []
  {
    if omitted != [] { NoneOfOther(omitted[..|omitted| - 1]); }
  }

  /** Recording dropped calls: the omissions come out in the fixed order, those of every
      other kind as they were, and the first of the kind "other" counts that many more, or
      is new. */
  lemma OmissionsAfter(omitted: seq<Omitted>, count: nat, k: Kind)
    ensures InOrder(AddOther(omitted, count))
    ensures var r, os := OfKind(AddOther(omitted, count), k), OfKind(omitted, k);
            if k != Other then r == os
            else if os == [] then r == [Omitted(Other, count)]
            else r == os[0 := Omitted(Other, os[0].count + count)]
  {
    hide SortOmitted;
    var i := FindOther(omitted);
    var grown := if i >= 0 then omitted[i := Omitted(Other, omitted[i].count + count)] else omitted + [Omitted(Other, count)];
    SortKeeps(grown, k);
    RankedIsInOrder(SortOmitted(grown));
    if i >= 0 {
      OfKindUpdated(omitted, k, count);
    } else {
      OfKindSnoc(omitted, Omitted(Other, count), k);
      NoneOfOther(omitted);
    }
  }

  // ---- the bound ----

  /** The entry with only its first `k` calls, the others counted as omitted. */
  function Keep<C>(e: Entry<C>, k: nat): Entry<C>
    requires k <= |e.calls|
  {
    IncrementOmittedOther(e.(calls := e.calls[..k]), |e.calls| - k)
  }

  function Cut<C>(e: Entry<C>, m: nat): Entry<C>
    requires m <= |e.content|
  {
    e.(content := e.content[..m], truncated := true)
  }

  predicate Small<C>(size: Size<C>, e: Entry<C>) {
    size(e) <= HISTORY_ENTRY_BYTE_MAX
  }

  function Middle(lo: nat, hi: nat): (mid: nat)
    requires lo <= hi
    ensures lo <= mid <= hi && lo + hi - 1 <= 2 * mid <= lo + hi
  {
    (lo + hi) / 2
  }

  /** Which prefix length the binary search between `lo` and `hi` ends with. */
  function Search<C>(size: Size<C>, e: Entry<C>, lo: nat, hi: int, best: nat): nat
    requires lo <= hi + 1 && hi <= |e.content|
    decreases hi - lo + 1
  {
    if lo > hi then best
    else
      var mid := Middle(lo, hi);
      if Small(size, Cut(e, mid)) then Search(size, e, mid + 1, hi, mid) else Search(size, e, lo, mid - 1, best)
  }

  /** Binary search for a content prefix: it returns a prefix that fits, or the empty one. */
  method TruncateContent<C>(size: Size<C>, e: Entry<C>) returns (best: Entry<C>, ghost m: nat)
    ensures m == Search(size, e, 0, |e.content|, 0) && m <= |e.content| && best == Cut(e, m)
    ensures m > 0 ==> Small(size, best)
    ensures m < |e.content| ==> !Small(size, Cut(e, m + 1)) || !Small(size, best)
  {
    best, m := Cut(e, 0), 0;
    var lo, hi := 0, |e.content|;
    while lo <= hi
      invariant 0 <= lo <= hi + 1 <= |e.content| + 1
      invariant Search(size, e, lo, hi, m) == Search(size, e, 0, |e.content|, 0)
      invariant m == (if lo == 0 then 0 else lo - 1) && best == Cut(e, m) && (lo > 0 ==> Small(size, best))
      invariant hi < |e.content| ==> !Small(size, Cut(e, hi + 1))
      decreases hi - lo
    {
      var mid := (lo + hi) / 2;
      var candidate := Cut(e, mid);
      if size(candidate) <= HISTORY_ENTRY_BYTE_MAX {
        best, m := candidate, mid;
        lo := mid + 1;
      } else {
        hi := mid - 1;
      }
    }
  }

  /** Drop calls from the end until the entry with its omission count fits. */
  method DropCalls<C>(size: Size<C>, e: Entry<C>) returns (bounded: Entry<C>, ghost k: nat)
    requires !Small(size, e)
    ensures k <= |e.calls| && bounded == Keep(e, k)
    ensures k > 0 ==> Small(size, bounded)
    ensures forall j :: k < j <= |e.calls| ==> !Small(size, Keep(e, j))
  {
    hide AddOther;
    var kept, dropped, recorded := e.calls, 0, false;
    k := |e.calls|;
    bounded := e;
    while |kept| > 0 && !recorded
      invariant kept == e.calls[..|kept|] && |kept| <= |e.calls| && dropped == |e.calls| - |kept| && k == |kept|
      invariant recorded ==> bounded == Keep(e, k) && k > 0 && Small(size, bounded) && dropped > 0
      invariant forall j :: k < j <= |e.calls| ==> !Small(size, Keep(e, j))
      decreases |kept|, !recorded
    {
      var plain := e.(calls := kept);
      var candidate := if dropped > 0 then IncrementOmittedOther(plain, dropped) else plain;
      assert candidate == Keep(e, |kept|);
      if size(candidate) <= HISTORY_ENTRY_BYTE_MAX {
        assert dropped == 0 ==> candidate == e;
        bounded, recorded := candidate, true;
      } else {
        kept := kept[..|kept| - 1];
        dropped := dropped + 1;
        k := |kept|;
      }
    }
    if !recorded {
      bounded := IncrementOmittedOther(e.(calls := kept), dropped);
    }
  }

  /** What an entry becomes: the same if it fits, else its longest prefix of calls that
      fits, and if none does, no calls and a cut content. */
  ghost predicate IsBounded<C>(size: Size<C>, e: Entry<C>, r: Entry<C>) {
    if Small(size, e) then r == e
    else exists k: nat :: k <= |e.calls| && LongestKept(size, e, k) && Settled(size, Keep(e, k), r)
  }

  ghost predicate LongestKept<C>(size: Size<C>, e: Entry<C>, k: nat)
    requires k <= |e.calls|
  {
    && (k > 0 ==> Small(size, Keep(e, k)))
    && (forall j :: k < j <= |e.calls| ==> !Small(size, Keep(e, j)))
  }

  ghost predicate Settled<C>(size: Size<C>, kept: Entry<C>, r: Entry<C>) {
    if Small(size, kept) then r == kept
    else exists m: nat :: m <= |kept.content| && r == Cut(kept, m) && CutHere(size, kept, m)
  }

  /** The prefix fits and one unit more does not, or even the empty one does not fit. */
  ghost predicate CutHere<C>(size: Size<C>, e: Entry<C>, m: nat)
    requires m <= |e.content|
  {
    (m > 0 ==> Small(size, Cut(e, m))) && (m < |e.content| ==> !Small(size, Cut(e, m + 1)) || !Small(size, Cut(e, m)))
  }

  method BoundHistoryEntry<C>(size: Size<C>, e: Entry<C>) returns (r: Entry<C>)
    ensures IsBounded(size, e, r)
  {
    if size(e) <= HISTORY_ENTRY_BYTE_MAX { return e; }
    ghost var k;
    r, k := DropCalls(size, e);
    assert LongestKept(size, e, k);
    if size(r) > HISTORY_ENTRY_BYTE_MAX {
      ghost var kept, m := r, 0;
      r, m := TruncateContent(size, r);
      assert CutHere(size, kept, m);
    }
    assert Settled(size, Keep(e, k), r);
  }

  // ---- properties ----

  /** Without calls and content the entry fits: its other fields are bounded. */
  ghost predicate FallbackFits<C>(size: Size<C>, e: Entry<C>) {
    Small(size, Cut(Keep(e, 0), 0))
  }

  /** The result fits the cap, keeps a prefix of the calls, and accounts for the rest. */
  lemma BoundedFitsAndConserves<C>(size: Size<C>, e: Entry<C>, r: Entry<C>)
    requires IsBounded(size, e, r) && (Small(size, e) || FallbackFits(size, e))
    ensures Small(size, r)
    ensures |r.calls| <= |e.calls| && r.calls == e.calls[..|r.calls|]
    ensures |r.calls| + CountOf(r.omitted, Other) == |e.calls| + CountOf(e.omitted, Other)
    ensures forall k: Kind :: !k.Other? ==> CountOf(r.omitted, k) == CountOf(e.omitted, k)
    ensures r.content <= e.content
    ensures r.content != e.content ==> r.truncated
    ensures r.truncated && !e.truncated ==> r.calls == [] && !Small(size, Keep(e, 0))
    ensures r.omitted != e.omitted ==> InOrder(r.omitted) && |r.calls| < |e.calls|
  {
    hide AddOther, CountOf, Keep, InOrder;
    if Small(size, e) {
      assert e.calls[..|e.calls|] == e.calls;
    } else {
      var k: nat :| k <= |e.calls| && LongestKept(size, e, k) && Settled(size, Keep(e, k), r);
      forall x: Kind ensures CountOf(Keep(e, k).omitted, x) == CountOf(e.omitted, x) + if x.Other? then |e.calls| - k else 0 {
        KeepFacts(e, k, x);
      }
      KeepFacts(e, k, Other);
      KeepFacts(e, 0, Other);
      assert e.calls[..0] == [];
    }
  }

  lemma KeepFacts<C>(e: Entry<C>, k: nat, x: Kind)
    requires k <= |e.calls|
    ensures Keep(e, k).calls == e.calls[..k] && Keep(e, k).content == e.content && Keep(e, k).truncated == e.truncated
    ensures CountOf(Keep(e, k).omitted, x) == CountOf(e.omitted, x) + if x.Other? then |e.calls| - k else 0
    ensures Keep(e, k).omitted != e.omitted ==> InOrder(Keep(e, k).omitted) && k < |e.calls|
  {
    hide Insert, InOrder, AddOther;
    if k < |e.calls| {
      AddOtherCounts(e.omitted, |e.calls| - k, x);
      OmissionsAfter(e.omitted, |e.calls| - k, x);
    }
  }

  /** No longer prefix of the calls would fit, and calls are given up before content. */
  lemma KeptCallsAreLongest<C>(size: Size<C>, e: Entry<C>, r: Entry<C>, j: nat)
    requires IsBounded(size, e, r) && |r.calls| < j <= |e.calls|
    ensures !Small(size, Keep(e, j))
    ensures r.calls != [] ==> r.content == e.content && r.truncated == e.truncated
  {
    hide AddOther;
    if !Small(size, e) {
      var k: nat :| k <= |e.calls| && LongestKept(size, e, k) && Settled(size, Keep(e, k), r);
    }
  }

  /** Bounding what is already bounded changes nothing. */
  lemma BoundingIsIdempotent<C>(size: Size<C>, e: Entry<C>, r: Entry<C>, again: Entry<C>)
    requires IsBounded(size, e, r) && (Small(size, e) || FallbackFits(size, e))
    requires IsBounded(size, r, again)
    ensures again == r
  {
    BoundedFitsAndConserves(size, e, r);
  }
}
