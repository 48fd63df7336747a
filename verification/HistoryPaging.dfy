/** Backward paging through a session history under a frame budget. */
module HistoryPaging {
  import opened Options
  import opened HistoryLimits
  import opened Base64Url

  // ---- cursors ----

  function Decimal(n: nat): (r: string)
    ensures |r| > 0 && forall i :: 0 <= i < |r| ==> '0' <= r[i] <= '9'
  {
    var digit := ['0' + (n % 10) as char];
    if n < 10 then digit else Decimal(n / 10) + digit
  }

  function CursorText(b: nat, sig: nat): string {
    "{\"b\":" + Decimal(b) + ",\"sig\":" + Decimal(sig) + "}"
  }

  function AsciiBytes(s: string): (r: Bytes)
    ensures |r| == |s|
    ensures forall i :: 0 <= i < |s| ==> r[i] == s[i] as int % 256
  {
    if s == [] then [] else AsciiBytes(s[..|s| - 1]) + [s[|s| - 1] as int % 256]
  }

  function EncodeCursor(b: nat, sig: nat): string {
    Encode(AsciiBytes(CursorText(b, sig)))
  }

  /** What a parsed cursor object holds: a field that is not an integer counts as none. */
  datatype CursorFields = CursorFields(b: Option<int>, sig: Option<int>)

  /** `parse` reads the decoded bytes as JSON (None unless they are an object), `size` is
      the byte length of a serialized entry, `sigOf` the 31-bit signature of a scope. */
  datatype Pager<!T> = Pager(parse: Bytes -> Option<CursorFields>, size: T -> nat, sigOf: string -> nat)

  /** Reading back what was written. */
  ghost predicate ReadsCursors<T>(p: Pager<T>) {
    forall b: nat, sig: nat :: p.parse(AsciiBytes(CursorText(b, sig))) == Some(CursorFields(Some(b), Some(sig)))
  }

  function DecodeCursor<T>(p: Pager<T>, cursor: string, count: nat, expected: nat): Option<nat> {
    if cursor == "" || !AllInAlphabet(cursor) then None
    else
      var parsed := p.parse(Decode(cursor));
      if parsed.None? || parsed.value.b.None? || parsed.value.sig.None? then None
      else
        var b, sig := parsed.value.b.value, parsed.value.sig.value;
        if b < 0 || b > count || sig < 0 || sig != expected then None else Some(b)
  }

  // ---- pages ----

  /** What is asked for is what is meant, between one entry and 256; fifty by default. A
      limit is None when it is absent or not finite, and else cut to an integer. */
  predicate Means(limit: Option<int>, n: nat) {
    && 1 <= n <= 256
    && (limit.None? ==> n == 50)
    && (limit.Some? && limit.value < 1 ==> n == 1)
    && (limit.Some? && 1 <= limit.value <= 256 ==> n == limit.value)
    && (limit.Some? && limit.value > 256 ==> n == 256)
  }

  function ClampLimit(limit: Option<int>): (n: nat)
    ensures Means(limit, n)
  {
    if limit.None? then HISTORY_PAGE_DEFAULT
    else if limit.value < 1 then 1
    else if limit.value > HISTORY_PAGE_MAX then HISTORY_PAGE_MAX
    else limit.value
  }

  function Total<T>(size: T -> nat, entries: seq<T>): nat {
    if entries == [] then 0 else size(entries[0]) + Total(size, entries[1..])
  }

  /** The page of these entries is allowed: within the limit, and within the budget
      unless it is a single entry. */
  ghost predicate Fits<T>(size: T -> nat, entries: seq<T>, limit: nat) {
    |entries| <= limit && (|entries| <= 1 || Total(size, entries) <= HISTORY_FRAME_BUDGET)
  }

  datatype Page<T> = Page(entries: seq<T>, next: Option<string>, truncated: bool)

  /** Walk back from the boundary while the count and the budget allow. */
  method FindStart<T>(size: T -> nat, entries: seq<T>, boundary: nat, limit: nat) returns (start: nat)
    requires boundary <= |entries| && limit >= 1
    ensures start <= boundary && Fits(size, entries[start..boundary], limit)
    ensures start > 0 ==> !Fits(size, entries[start - 1..boundary], limit)
    ensures boundary > 0 ==> start < boundary
  {
    start := boundary;
    var count, bytes := 0, 0;
    var i := boundary;
    assert entries[start..boundary] == [];
    while i > 0 && count < limit
      invariant 0 <= i == start <= boundary && count == boundary - start <= limit
      invariant bytes == Total(size, entries[start..boundary]) && Fits(size, entries[start..boundary], limit)
    {
      assert entries[i - 1..boundary][1..] == entries[i..boundary];
      var entryBytes := size(entries[i - 1]);
      if count > 0 && bytes + entryBytes > HISTORY_FRAME_BUDGET { break; }
      start := i - 1;
      count := count + 1;
      bytes := bytes + entryBytes;
      i := i - 1;
    }
  }

  /** The start of the page is fixed by what the page must be: the longest that fits. */
  ghost predicate IsStart<T>(size: T -> nat, entries: seq<T>, boundary: nat, limit: nat, start: nat)
    requires boundary <= |entries|
  {
    && start <= boundary && Fits(size, entries[start..boundary], limit)
    && (start > 0 ==> !Fits(size, entries[start - 1..boundary], limit))
    && (boundary > 0 ==> start < boundary)
  }

  /** None is the cursor error. */
  method PaginateHistory<T>(p: Pager<T>, entries: seq<T>, scope: string, cursor: Option<string>, limit: Option<int>)
    returns (page: Option<Page<T>>)
    ensures IsPage(p, entries, scope, cursor, limit, page)
  {
    var n, sig := ClampLimit(limit), p.sigOf(scope);
    var boundary := |entries|;
    if cursor.Some? {
      var b := DecodeCursor(p, cursor.value, |entries|, sig);
      if b.None? { return None; }
      boundary := b.value;
    }
    var start := FindStart(p.size, entries, boundary, n);
    page := Some(Page(entries[start..boundary], if start > 0 then Some(EncodeCursor(start, sig)) else None, start > 0));
    assert IsStart(p.size, entries, boundary, n, start);
  }

  /** Where a request starts reading backwards. */
  ghost function Boundary<T>(p: Pager<T>, entries: seq<T>, scope: string, cursor: Option<string>): (b: Option<nat>)
    ensures b.Some? ==> b.value <= |entries|
  {
    if cursor.None? then Some(|entries|) else DecodeCursor(p, cursor.value, |entries|, p.sigOf(scope))
  }

  /** What a page is, without saying how it is found. */
  ghost predicate IsPage<T>(p: Pager<T>, entries: seq<T>, scope: string, cursor: Option<string>, limit: Option<int>, page: Option<Page<T>>) {
    var b := Boundary(p, entries, scope, cursor);
    if b.None? then page.None?
    else
      && page.Some?
      && exists start: nat :: IsStart(p.size, entries, b.value, ClampLimit(limit), start) && PageFrom(p, entries, scope, b.value, start, page.value)
  }

  ghost predicate PageFrom<T>(p: Pager<T>, entries: seq<T>, scope: string, boundary: nat, start: nat, page: Page<T>)
    requires boundary <= |entries|
  {
    && start <= boundary && page.entries == entries[start..boundary]
    && page.next == (if start > 0 then Some(EncodeCursor(start, p.sigOf(scope))) else None)
    && page.truncated == (start > 0)
  }

  // ---- properties ----

  lemma {:induction false} TotalShrinks<T>(size: T -> nat, entries: seq<T>, k: nat)
    requires k <= |entries|
    ensures Total(size, entries[k..]) <= Total(size, entries)
  {
    if k > 0 {
      TotalShrinks(size, entries[1..], k - 1);
      assert entries[1..][k - 1..] == entries[k..];
    }
  }

  /** Exactly the starts from `start` on give a page that fits, so there is only one
      longest page and only one answer to a request. */
  lemma StartIsLeast<T>(size: T -> nat, entries: seq<T>, boundary: nat, limit: nat, start: nat, s: nat)
    requires boundary <= |entries| && s <= boundary && limit >= 1 && IsStart(size, entries, boundary, limit, start)
    ensures Fits(size, entries[s..boundary], limit) <==> start <= s
  {
    hide Total;
    if start <= s {
      assert entries[start..boundary][s - start..] == entries[s..boundary];
      TotalShrinks(size, entries[start..boundary], s - start);
    } else {
      assert entries[s..boundary][start - 1 - s..] == entries[start - 1..boundary];
      TotalShrinks(size, entries[s..boundary], start - 1 - s);
    }
  }

  lemma PageIsUnique<T>(p: Pager<T>, entries: seq<T>, scope: string, cursor: Option<string>, limit: Option<int>,
                        q: Option<Page<T>>, r: Option<Page<T>>)
    requires IsPage(p, entries, scope, cursor, limit, q) && IsPage(p, entries, scope, cursor, limit, r)
    ensures q == r
  {
    var b := Boundary(p, entries, scope, cursor);
    if b.Some? {
      var s := StartOf(p, entries, scope, cursor, limit, q.value);
      var t := StartOf(p, entries, scope, cursor, limit, r.value);
      hide IsPage, Total, Encode, EncodeCursor, DecodeCursor;
      StartIsLeast(p.size, entries, b.value, ClampLimit(limit), s, t);
      StartIsLeast(p.size, entries, b.value, ClampLimit(limit), t, s);
    }
  }

  /** Decoding undoes encoding within the log, and a cursor of another signature, or past
      the end, is refused. */
  lemma CursorRoundTrip<T>(p: Pager<T>, b: nat, sig: nat, count: nat, expected: nat)
    requires ReadsCursors(p)
    ensures DecodeCursor(p, EncodeCursor(b, sig), count, expected) == if b <= count && sig == expected then Some(b) else None
  {
    hide Encode, Decode, Decimal, CursorText, AsciiBytes;
    DecodeEncode(AsciiBytes(CursorText(b, sig)));
    EncodeShape(AsciiBytes(CursorText(b, sig)));
    CursorTextNotEmpty(b, sig);
  }

  lemma CursorTextNotEmpty(b: nat, sig: nat)
    ensures |AsciiBytes(CursorText(b, sig))| > 3
  {
  }

  lemma StartOf<T>(p: Pager<T>, entries: seq<T>, scope: string, cursor: Option<string>, limit: Option<int>, page: Page<T>)
    returns (s: nat)
    requires IsPage(p, entries, scope, cursor, limit, Some(page))
    ensures Boundary(p, entries, scope, cursor).Some?
    ensures var b := Boundary(p, entries, scope, cursor).value;
            IsStart(p.size, entries, b, ClampLimit(limit), s) && PageFrom(p, entries, scope, b, s, page)
  {
    var b := Boundary(p, entries, scope, cursor).value;
    s :| IsStart(p.size, entries, b, ClampLimit(limit), s) && PageFrom(p, entries, scope, b, s, page);
  }

  /** Every page but one of an empty range holds something, and fits the frame together
      with its commas and a bounded envelope. */
  lemma PageFitsFrame<T>(p: Pager<T>, entries: seq<T>, scope: string, cursor: Option<string>, limit: Option<int>,
                         page: Option<Page<T>>, envelope: nat)
    requires IsPage(p, entries, scope, cursor, limit, page) && page.Some?
    requires forall i :: 0 <= i < |entries| ==> p.size(entries[i]) <= HISTORY_ENTRY_BYTE_MAX
    requires envelope <= 16_384 - HISTORY_PAGE_MAX
    ensures var n := |page.value.entries|;
            && n <= HISTORY_PAGE_MAX && (page.value.entries == [] ==> page.value.next.None?)
            && Total(p.size, page.value.entries) + (if n > 0 then n - 1 else 0) + envelope <= MAX_FRAME_BYTES
  {
    var b := Boundary(p, entries, scope, cursor).value;
    var s := StartOf(p, entries, scope, cursor, limit, page.value);
    if b - s == 1 {
      assert entries[s..b] == [entries[s]];
      assert Total(p.size, [entries[s]]) == p.size(entries[s]);
    }
  }

  /** A page ends where the request starts reading, never holds more than was asked for,
      and holds exactly that many if so many are left and fit the budget together. It
      stops short only where one more would not fit. */
  lemma LimitIsHonoured<T>(p: Pager<T>, entries: seq<T>, scope: string, cursor: Option<string>, limit: Option<int>,
                           page: Option<Page<T>>, n: nat)
    requires IsPage(p, entries, scope, cursor, limit, page) && page.Some? && Means(limit, n)
    ensures Boundary(p, entries, scope, cursor).Some?
    ensures var b, m := Boundary(p, entries, scope, cursor).value, |page.value.entries|;
            && m <= n && m <= b && page.value.entries == entries[b - m..b] && (m == 0 <==> b == 0)
            && (n <= b && (n == 1 || Total(p.size, entries[b - n..b]) <= 0x10_0000 - 16_384) ==> m == n)
            && (m < n && m < b ==> Total(p.size, entries[b - m - 1..b]) > 0x10_0000 - 16_384)
            && (page.value.truncated <==> m < b)
  {
    hide Total, DecodeCursor, EncodeCursor, IsPage, Boundary, ClampLimit;
    var s := StartOf(p, entries, scope, cursor, limit, page.value);
    MeansOne(limit, n, ClampLimit(limit));
    PageLength(p.size, entries, Boundary(p, entries, scope, cursor).value, n, s);
  }

  lemma MeansOne(limit: Option<int>, m: nat, n: nat)
    requires Means(limit, m) && Means(limit, n)
    ensures m == n
  {
  }

  lemma PageLength<T>(size: T -> nat, entries: seq<T>, b: nat, n: nat, s: nat)
    requires b <= |entries| && n >= 1 && IsStart(size, entries, b, n, s)
    ensures s <= b && b - s <= n && (s == b <==> b == 0)
    ensures n <= b && (n == 1 || Total(size, entries[b - n..b]) <= 0x10_0000 - 16_384) ==> b - s == n
    ensures b - s < n && 0 < s ==> Total(size, entries[s - 1..b]) > 0x10_0000 - 16_384
  {
    hide Total;
    if n <= b { StartIsLeast(size, entries, b, n, s, b - n); }
  }

  /** A cursor is a position from the start, so what is appended later moves no page. */
  lemma AppendMovesNoPage<T>(p: Pager<T>, entries: seq<T>, more: seq<T>, scope: string, cursor: string, limit: Option<int>,
                             page: Option<Page<T>>)
    requires IsPage(p, entries, scope, Some(cursor), limit, page) && page.Some?
    ensures IsPage(p, entries + more, scope, Some(cursor), limit, page)
  {
    var b := Boundary(p, entries, scope, Some(cursor)).value;
    assert Boundary(p, entries + more, scope, Some(cursor)) == Some(b);
    var s := StartOf(p, entries, scope, Some(cursor), limit, page.value);
    assert (entries + more)[s..b] == entries[s..b];
    assert s > 0 ==> (entries + more)[s - 1..b] == entries[s - 1..b];
    assert IsStart(p.size, entries + more, b, ClampLimit(limit), s);
    hide Fits, Total, DecodeCursor, EncodeCursor;
  }

  /** A client that starts at the newest page and follows the cursors, with whatever
      limit on each request: what it has collected, oldest first. */
  ghost predicate Follows<T(!new)>(p: Pager<T>, entries: seq<T>, scope: string, cursor: Option<string>, limits: seq<Option<int>>, collected: seq<T>)
    decreases |limits|
  {
    if limits == [] then collected == []
    else
      exists page: Page<T>, rest: seq<T> ::
        && IsPage(p, entries, scope, cursor, limits[0], Some(page))
        && collected == rest + page.entries
        && (if page.next.None? then rest == [] else Follows(p, entries, scope, page.next, limits[1..], rest))
  }

  /** Each request takes entries from the end of what is left, so after as many requests
      as there are entries everything has arrived, once and in order. */
  lemma {:induction false} FollowingYieldsAll<T(!new)>(p: Pager<T>, entries: seq<T>, scope: string, cursor: Option<string>,
                                                 limits: seq<Option<int>>, collected: seq<T>)
    requires ReadsCursors(p) && Boundary(p, entries, scope, cursor).Some?
    requires Follows(p, entries, scope, cursor, limits, collected)
    requires |limits| >= Boundary(p, entries, scope, cursor).value
    ensures collected == entries[..Boundary(p, entries, scope, cursor).value]
    decreases |limits|
  {
    hide IsPage, Total, Fits, Encode, EncodeCursor, DecodeCursor, ReadsCursors, ClampLimit;
    var b := Boundary(p, entries, scope, cursor).value;
    if limits != [] {
      var page: Page<T>, rest: seq<T> :|
        && IsPage(p, entries, scope, cursor, limits[0], Some(page))
        && collected == rest + page.entries
        && (if page.next.None? then rest == [] else Follows(p, entries, scope, page.next, limits[1..], rest));
      var s := StartOf(p, entries, scope, cursor, limits[0], page);
      if s > 0 {
        CursorRoundTrip(p, s, p.sigOf(scope), |entries|, p.sigOf(scope));
        FollowingYieldsAll(p, entries, scope, page.next, limits[1..], rest);
      }
      assert entries[..b] == entries[..s] + entries[s..b];
    }
  }

  lemma {:induction false} StartExists<T>(size: T -> nat, entries: seq<T>, boundary: nat, limit: nat, s: nat) returns (start: nat)
    requires s <= boundary <= |entries| && limit >= 1
    requires Fits(size, entries[s..boundary], limit) && (boundary > 0 ==> s < boundary)
    ensures IsStart(size, entries, boundary, limit, start)
    decreases s
  {
    start := s;
    if s > 0 && Fits(size, entries[s - 1..boundary], limit) {
      start := StartExists(size, entries, boundary, limit, s - 1);
    }
  }

  lemma PageExists<T>(p: Pager<T>, entries: seq<T>, scope: string, cursor: Option<string>, limit: Option<int>) returns (page: Page<T>)
    requires Boundary(p, entries, scope, cursor).Some?
    ensures IsPage(p, entries, scope, cursor, limit, Some(page))
  {
    var b := Boundary(p, entries, scope, cursor).value;
    var start := StartExists(p.size, entries, b, ClampLimit(limit), if b == 0 then 0 else b - 1);
    page := Page(entries[start..b], if start > 0 then Some(EncodeCursor(start, p.sigOf(scope))) else None, start > 0);
    assert PageFrom(p, entries, scope, b, start, page);
  }

  /** And a client can always follow: no cursor it was given is refused. */
  lemma {:induction false} FollowingNeverFails<T(!new)>(p: Pager<T>, entries: seq<T>, scope: string, cursor: Option<string>,
                                                        limits: seq<Option<int>>) returns (collected: seq<T>)
    requires ReadsCursors(p) && Boundary(p, entries, scope, cursor).Some?
    ensures Follows(p, entries, scope, cursor, limits, collected)
    decreases |limits|
  {
    hide IsPage, Total, Fits, Encode, EncodeCursor, DecodeCursor, ReadsCursors, ClampLimit;
    collected := [];
    if limits != [] {
      var page := PageExists(p, entries, scope, cursor, limits[0]);
      var s := StartOf(p, entries, scope, cursor, limits[0], page);
      var rest: seq<T> := [];
      if page.next.Some? {
        CursorRoundTrip(p, s, p.sigOf(scope), |entries|, p.sigOf(scope));
        rest := FollowingNeverFails(p, entries, scope, page.next, limits[1..]);
      }
      collected := rest + page.entries;
    }
  }
}
