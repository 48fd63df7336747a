/** The byte size of a history entry as it is sent: the UTF-8 length of its JSON text.
    It does not quite grow with the content, because half a surrogate pair takes six bytes
    and the whole pair four. This file says exactly what that means for cut content, and
    that the entries of a session log are never cut. */
module EntrySizes {
  import opened Options
  import opened HistoryLimits
  import opened CanonicalText
  import opened Utf8Text
  import opened EntryBounding

  // ---- the bytes of quoted text ----

  /** The units of a quoted string from `i` on, without the closing quote. */
  function Body(s: Text, i: nat): Text
    requires i <= |s|
    decreases |s| - i
  {
    if i == |s| then [] else Escape(s[i], Lone(s, i)) + Body(s, i + 1)
  }

  function Width(s: Text): nat {
    |Utf8(Body(s, 0))|
  }

  lemma {:induction false} QuoteIsBody(s: Text, i: nat)
    requires i <= |s|
    ensures QuoteFrom(s, i) == Body(s, i) + [QUOTE]
    decreases |s| - i
  {
    if i < |s| { QuoteIsBody(s, i + 1); }
  }

  /** Escapes end in nothing that could be half of a pair at the end of a text. */
  lemma {:induction false} BodyEnds(s: Text, i: nat)
    requires i <= |s|
    ensures Body(s, i) == [] <==> i == |s|
    ensures Body(s, i) != [] ==> !High(Body(s, i)[|Body(s, i)| - 1])
    decreases |s| - i
  {
    if i < |s| {
      BodyEnds(s, i + 1);
      EscapeEnds(s, i);
    }
  }

  lemma EscapeEnds(s: Text, i: nat)
    requires i < |s|
    ensures var e := Escape(s[i], Lone(s, i)); e != [] && (High(e[|e| - 1]) ==> i + 1 < |s| && Low(s[i + 1]))
  {
  }

  lemma LoneIn(s: Text, t: Text, i: nat)
    requires CleanCut(s, t)
    ensures i < |s| ==> Lone(s + t, i) == Lone(s, i)
    ensures i < |t| ==> Lone(s + t, |s| + i) == Lone(t, i)
  {
  }

  lemma {:induction false} BodyPrefix(s: Text, t: Text, i: nat)
    requires i <= |s| && CleanCut(s, t)
    ensures Body(s + t, i) == Body(s, i) + Body(s + t, |s|)
    decreases |s| - i
  {
    hide Escape, Lone, CleanCut;
    if i < |s| {
      LoneIn(s, t, i);
      BodyPrefix(s, t, i + 1);
      var e := Escape(s[i], Lone(s, i));
      assert Body(s, i) == e + Body(s, i + 1) && Body(s + t, i) == e + Body(s + t, i + 1);
      hide Body;
      Associative(e, Body(s, i + 1), Body(s + t, |s|));
    }
  }

  lemma Associative(x: Text, y: Text, z: Text)
    ensures x + (y + z) == (x + y) + z
  {
  }

  lemma {:induction false} BodySuffix(s: Text, t: Text, i: nat)
    requires i <= |t| && CleanCut(s, t)
    ensures Body(s + t, |s| + i) == Body(t, i)
    decreases |t| - i
  {
    hide Escape, Lone, CleanCut;
    if i < |t| {
      LoneIn(s, t, i);
      BodySuffix(s, t, i + 1);
      assert |s| + (i + 1) == (|s| + i) + 1;
    }
  }

  lemma WidthConcat(s: Text, t: Text)
    requires CleanCut(s, t)
    ensures Width(s + t) == Width(s) + Width(t)
  {
    BodyPrefix(s, t, 0);
    BodySuffix(s, t, 0);
    BodyEnds(s, 0);
    hide Body, Utf8;
    Utf8Concat(Body(s, 0), Body(t, 0));
  }

  /** One unit alone takes up to six bytes, half a pair exactly six. */
  lemma WidthOfOne(u: Unit)
    ensures 1 <= Width([u]) <= 6
    ensures High(u) || Low(u) ==> Width([u]) == 6
  {
    var e := Escape(u, Lone([u], 0));
    assert Body([u], 0) == e;
    if e == [u] {
      assert Utf8(e) == One(u) + Utf8(e[1..]);
    } else {
      EscapeIsAscii(u, Lone([u], 0));
      Utf8Ascii(e);
    }
  }

  lemma EscapeIsAscii(u: Unit, lone: bool)
    ensures Escape(u, lone) == [u] || (|Escape(u, lone)| <= 6 && forall i :: 0 <= i < |Escape(u, lone)| ==> Escape(u, lone)[i] < 0x80)
    ensures u < 0x80 && Escape(u, lone) == [u] ==> |Escape(u, lone)| == 1
    ensures Escape(u, lone) != []
    ensures lone && (High(u) || Low(u)) ==> Escape(u, lone) != [u] && |Escape(u, lone)| == 6
  {
  }

  lemma WidthOfPair(h: Unit, l: Unit)
    requires High(h) && Low(l)
    ensures Width([h, l]) == 4
  {
    var s := [h, l];
    assert !Lone(s, 0) && !Lone(s, 1);
    assert Body(s, 2) == [] && Body(s, 1) == [l] && Body(s, 0) == [h, l];
    assert [h, l][2..] == [];
    assert Utf8([h, l]) == Pair(h, l) + Utf8([]);
  }

  lemma WidthOfNone()
    ensures Width([]) == 0
  {
  }

  /** Cutting `s` at `n` cuts a surrogate pair. */
  predicate Splits(s: Text, n: nat) {
    0 < n < |s| && High(s[n - 1]) && Low(s[n])
  }

  lemma WidthGrows(s: Text, m: nat, n: nat)
    requires m <= n <= |s| && !Splits(s, m)
    ensures Width(s[..m]) <= Width(s[..n])
  {
    assert s[..n] == s[..m] + s[m..n];
    WidthConcat(s[..m], s[m..n]);
  }

  /** Half a pair is two bytes longer than the whole of it. */
  lemma WidthAtSplit(s: Text, n: nat)
    requires Splits(s, n)
    ensures Width(s[..n]) == Width(s[..n - 1]) + 6 && Width(s[..n + 1]) == Width(s[..n - 1]) + 4
  {
    assert s[..n] == s[..n - 1] + [s[n - 1]] && s[..n + 1] == s[..n - 1] + [s[n - 1], s[n]];
    WidthConcat(s[..n - 1], [s[n - 1]]);
    WidthConcat(s[..n - 1], [s[n - 1], s[n]]);
    WidthOfOne(s[n - 1]);
    WidthOfPair(s[n - 1], s[n]);
  }

  lemma {:induction false} WidthBound(s: Text)
    ensures Width(s) <= 6 * |s|
    decreases |s|
  {
    var n := |s| - 1;
    if n < 0 {
      WidthOfNone();
    } else if n > 0 && Splits(s, n) {
      WidthAtSplit(s, n);
      WidthBound(s[..n - 1]);
      assert s[..n + 1] == s;
    } else {
      assert s == s[..n] + [s[n]];
      WidthConcat(s[..n], [s[n]]);
      WidthOfOne(s[n]);
      WidthBound(s[..n]);
    }
  }

  // ---- the bytes of an entry ----

  /** What an entry carries beside the fields that bounding looks at. */
  datatype Head = Head(id: Text, assistant: bool, created: Option<Text>)

  function KindName(k: Kind): Text {
    match k
    case Image => Ascii("image")
    case Document => Ascii("document")
    case Thinking => Ascii("thinking")
    case Fallback => Ascii("fallback")
    case Other => Ascii("other")
  }

  function OmittedText(o: Omitted): Text {
    Ascii("{\"kind\":\"") + KindName(o.kind) + Ascii("\",\"count\":") + Natural(o.count) + Ascii("}")
  }

  function ListText(items: seq<Text>): Text {
    if items == [] then []
    else if |items| == 1 then items[0]
    else items[0] + [COMMA] + ListText(items[1..])
  }

  function OmittedTexts(omitted: seq<Omitted>): seq<Text> {
    if omitted == [] then [] else [OmittedText(omitted[0])] + OmittedTexts(omitted[1..])
  }

  function CallTexts<C>(call: C -> Text, calls: seq<C>): seq<Text> {
    if calls == [] then [] else [call(calls[0])] + CallTexts(call, calls[1..])
  }

  /** What is written before the quoted content, and after it. The order of the members
      makes no difference to the length. */
  function Before(h: Head): Text {
    Ascii("{\"entry_id\":") + Quote(h.id) + Ascii(",\"role\":\"") + Ascii(if h.assistant then "assistant" else "user")
    + Ascii("\",\"content\":")
  }

  function Following<C>(h: Head, call: C -> Text, e: Entry<C>): Text {
    Ascii(",\"created_at\":") + (if h.created.Some? then Quote(h.created.value) else NULL)
    + (if e.truncated then Ascii(",\"content_truncated\":true") else [])
    + (if e.omitted != [] then Ascii(",\"omitted\":[") + ListText(OmittedTexts(e.omitted)) + Ascii("]") else [])
    + (if e.calls != [] then Ascii(",\"tool_calls\":[") + ListText(CallTexts(call, e.calls)) + Ascii("]") else [])
    + Ascii("}")
  }

  /** `Buffer.byteLength(JSON.stringify(entry), "utf8")`. */
  function EntryBytes<C>(h: Head, call: C -> Text, e: Entry<C>): nat {
    |Utf8(Before(h) + Quote(e.content) + Following(h, call, e))|
  }

  function SizeIn<C>(h: Head, call: C -> Text): Size<C> {
    (e: Entry<C>) => EntryBytes(h, call, e)
  }

  /** The bytes of a text that does not end in half a pair are counted by themselves. */
  lemma BytesConcat(s: Text, t: Text)
    requires s != [] ==> !High(s[|s| - 1])
    ensures |Utf8(s + t)| == |Utf8(s)| + |Utf8(t)|
  {
    Utf8Concat(s, t);
  }

  lemma QuoteBytes(s: Text)
    ensures |Utf8(Quote(s))| == Width(s) + 2
    ensures Quote(s)[|Quote(s)| - 1] == QUOTE
  {
    QuoteIsBody(s, 0);
    BodyEnds(s, 0);
    assert Quote(s) == [QUOTE] + (Body(s, 0) + [QUOTE]);
    BytesConcat([QUOTE], Body(s, 0) + [QUOTE]);
    BytesConcat(Body(s, 0), [QUOTE]);
    Utf8Ascii([QUOTE]);
  }

  /** The content adds the width of its quoted form to what the rest takes. */
  lemma ContentAddsWidth<C>(h: Head, call: C -> Text, e: Entry<C>)
    ensures EntryBytes(h, call, e) == |Utf8(Before(h))| + 2 + Width(e.content) + |Utf8(Following(h, call, e))|
  {
    var b, q, f := Before(h), Quote(e.content), Following(h, call, e);
    QuoteBytes(e.content);
    hide Following, Quote;
    assert b[|b| - 1] == Ascii("\",\"content\":")[11];
    BytesConcat(b, q);
    BytesConcat(b + q, f);
  }

  // ---- cut content ----

  lemma CutAddsWidth<C>(h: Head, call: C -> Text, e: Entry<C>, n: nat)
    requires n <= |e.content|
    ensures EntryBytes(h, call, Cut(e, n)) == EntryBytes(h, call, Cut(e, 0)) + Width(e.content[..n])
  {
    ContentAddsWidth(h, call, Cut(e, n));
    ContentAddsWidth(h, call, Cut(e, 0));
    WidthOfNone();
    assert Following(h, call, Cut(e, n)) == Following(h, call, Cut(e, 0));
    hide EntryBytes, Following;
  }

  /** The prefix of `n` units fits. */
  predicate Fits<C>(size: Size<C>, e: Entry<C>, n: nat)
    requires n <= |e.content|
  {
    Small(size, Cut(e, n))
  }

  /** `longest` is the longest prefix that fits. */
  ghost predicate IsLongest<C>(size: Size<C>, e: Entry<C>, longest: nat) {
    && longest <= |e.content| && Fits(size, e, longest)
    && forall n :: longest < n <= |e.content| ==> !Fits(size, e, n)
  }

  /** A shorter prefix that does not fit though a longer one does. */
  ghost predicate Hole<C>(size: Size<C>, e: Entry<C>, longest: nat, g: nat) {
    g < longest <= |e.content| && !Fits(size, e, g)
  }

  lemma FitsByWidth<C>(h: Head, call: C -> Text, e: Entry<C>, n: nat)
    requires n <= |e.content|
    ensures Fits(SizeIn(h, call), e, n) <==> EntryBytes(h, call, Cut(e, 0)) + Width(e.content[..n]) <= HISTORY_ENTRY_BYTE_MAX
  {
    CutAddsWidth(h, call, e, n);
    hide EntryBytes, Width;
  }

  /** A hole splits a surrogate pair, at most one unit short of the longest prefix. */
  lemma HoleSplits<C>(h: Head, call: C -> Text, e: Entry<C>, longest: nat, g: nat)
    requires IsLongest(SizeIn(h, call), e, longest) && Hole(SizeIn(h, call), e, longest, g)
    ensures Splits(e.content, g) && longest <= g + 2
  {
    FitsByWidth(h, call, e, g);
    FitsByWidth(h, call, e, longest);
    hide SizeIn, Fits;
    assert Width(e.content[..g]) > Width(e.content[..longest]);
    WiderSplits(e.content, g, longest);
  }

  /** A shorter prefix is wider only if it splits a pair right before the end of the longer. */
  lemma WiderSplits(s: Text, g: nat, n: nat)
    requires g < n <= |s| && Width(s[..g]) > Width(s[..n])
    ensures Splits(s, g) && n <= g + 2
  {
    hide Width;
    if !Splits(s, g) {
      WidthGrows(s, g, n);
    } else {
      WidthAtSplit(s, g);
      if n > g + 2 { TwoMoreUnits(s, g + 1, n); }
    }
  }

  /** Two units after a place that splits nothing take at least two bytes. */
  lemma TwoMoreUnits(s: Text, m: nat, n: nat)
    requires m + 2 <= n <= |s| && !Splits(s, m)
    ensures Width(s[..n]) >= Width(s[..m]) + 2
  {
    assert s[..n] == s[..m] + s[m..n];
    WidthConcat(s[..m], s[m..n]);
    AtLeastTwo(s[m..n]);
    hide Width;
  }

  lemma AtLeastTwo(t: Text)
    requires |t| >= 2
    ensures Width(t) >= 2
  {
    var n := |t| - 1;
    if Splits(t, n) {
      assert t == t[..n + 1];
      WidthAtSplit(t, n);
    } else {
      assert t == t[..n] + [t[n]];
      WidthConcat(t[..n], [t[n]]);
      WidthOfOne(t[n]);
      NotEmptyWide(t[..n]);
    }
    hide Width;
  }

  lemma NotEmptyWide(t: Text)
    requires t != []
    ensures Width(t) >= 1
  {
    BodyEnds(t, 0);
    NotEmpty(Body(t, 0));
  }

  lemma OneHole<C>(h: Head, call: C -> Text, e: Entry<C>, longest: nat, f: nat, g: nat)
    requires IsLongest(SizeIn(h, call), e, longest)
    requires Hole(SizeIn(h, call), e, longest, f) && Hole(SizeIn(h, call), e, longest, g)
    ensures f == g
  {
    hide SizeIn, IsLongest, Fits;
    HoleSplits(h, call, e, longest, f);
    HoleSplits(h, call, e, longest, g);
  }

  // ---- what the bisection finds ----

  /** The first place between `a` and `b` that bisection of `lo` to `hi` looks at, when it
      goes right below `a` and left above `b`. It depends on these numbers alone. */
  function FirstMet(lo: nat, hi: nat, a: nat, b: nat): nat
    requires lo <= a <= b <= hi
    decreases hi - lo
  {
    var mid := Middle(lo, hi);
    if mid < a then FirstMet(mid + 1, hi, a, b) else if mid > b then FirstMet(lo, mid - 1, a, b) else mid
  }

  /** One step of the search. */
  lemma SearchStep<C>(size: Size<C>, e: Entry<C>, lo: nat, hi: nat, best: nat)
    requires lo <= hi <= |e.content|
    ensures var mid := Middle(lo, hi);
            Search(size, e, lo, hi, best)
            == if Fits(size, e, mid) then Search(size, e, mid + 1, hi, mid) else Search(size, e, lo, mid - 1, best)
  {
  }

  lemma MetStep(lo: nat, hi: nat, a: nat, b: nat)
    requires lo <= a <= b <= hi
    ensures var mid := Middle(lo, hi);
            && (mid < a ==> FirstMet(lo, hi, a, b) == FirstMet(mid + 1, hi, a, b))
            && (mid > b ==> FirstMet(lo, hi, a, b) == FirstMet(lo, mid - 1, a, b))
            && (a <= mid <= b ==> FirstMet(lo, hi, a, b) == mid)
  {
  }

  /** From `lo` to `hi`, exactly the lengths up to `longest` fit, but for `g`. */
  ghost predicate FitsBut<C>(size: Size<C>, e: Entry<C>, lo: nat, hi: int, longest: nat, g: int)
    requires hi <= |e.content|
  {
    forall n: nat :: lo <= n <= hi ==> (Fits(size, e, n) <==> n <= longest && n != g)
  }

  lemma FitsAt<C>(size: Size<C>, e: Entry<C>, lo: nat, hi: int, longest: nat, g: int, n: nat)
    requires hi <= |e.content| && FitsBut(size, e, lo, hi, longest, g) && lo <= n <= hi
    ensures Fits(size, e, n) <==> n <= longest && n != g
    ensures FitsBut(size, e, n + 1, hi, longest, g) && FitsBut(size, e, lo, n - 1, longest, g)
    ensures 0 < n == g <= longest ==> FitsBut(size, e, lo, n - 1, n - 1, -1)
    ensures n > g ==> FitsBut(size, e, n + 1, hi, longest, -1)
  {
    hide Fits;
  }

  lemma {:induction false} SearchFinds<C>(size: Size<C>, e: Entry<C>, lo: nat, hi: int, best: nat, longest: nat)
    requires lo <= hi + 1 && hi <= |e.content| && longest <= hi && (lo <= longest || (best == longest && lo == longest + 1))
    requires FitsBut(size, e, lo, hi, longest, -1)
    ensures Search(size, e, lo, hi, best) == longest
    decreases hi - lo + 1
  {
    hide Fits, FitsBut;
    if lo <= hi {
      var mid := Middle(lo, hi);
      SearchStep(size, e, lo, hi, best);
      FitsAt(size, e, lo, hi, longest, -1, mid);
      hide Search;
      if mid <= longest { SearchFinds(size, e, mid + 1, hi, mid, longest); } else { SearchFinds(size, e, lo, mid - 1, best, longest); }
    }
  }

  /** With one hole, the search ends before it if it looks there first, else behind it. */
  lemma {:induction false} SearchWithHole<C>(size: Size<C>, e: Entry<C>, lo: nat, hi: nat, best: nat, g: nat, longest: nat)
    requires lo <= g < longest <= hi <= |e.content| && 0 < g && (best + 1 == lo || lo == 0)
    requires FitsBut(size, e, lo, hi, longest, g)
    ensures Search(size, e, lo, hi, best) == if FirstMet(lo, hi, g, longest) == g then g - 1 else longest
    decreases hi - lo
  {
    hide Search, Fits, FitsBut, FirstMet, Middle;
    var mid := Middle(lo, hi);
    SearchStep(size, e, lo, hi, best);
    FitsAt(size, e, lo, hi, longest, g, mid);
    MetStep(lo, hi, g, longest);
    if mid == g {
      SearchFinds(size, e, lo, g - 1, best, g - 1);
    } else if g < mid <= longest {
      SearchFinds(size, e, mid + 1, hi, mid, longest);
    } else {
      var (l, r, b) := if mid < g then (mid + 1, hi, mid) else (lo, mid - 1, best);
      SearchWithHole(size, e, l, r, b, g, longest);
    }
  }

  /** A search that can meet one hole at most, not at the empty prefix. */
  lemma SearchMisses<C>(size: Size<C>, e: Entry<C>, longest: nat, g: nat)
    requires IsLongest(size, e, longest) && Hole(size, e, longest, g) && 0 < g
    requires forall f :: Hole(size, e, longest, f) ==> f == g
    ensures Search(size, e, 0, |e.content|, 0) == if FirstMet(0, |e.content|, g, longest) == g then g - 1 else longest
  {
    hide Fits, Search, FirstMet;
    forall n: nat | n <= |e.content| ensures Fits(size, e, n) <==> n <= longest && n != g {
      if n < longest && !Fits(size, e, n) { assert Hole(size, e, longest, n); }
    }
    assert FitsBut(size, e, 0, |e.content|, longest, g);
    hide IsLongest, Hole, FitsBut;
    SearchWithHole(size, e, 0, |e.content|, 0, g, longest);
  }

  lemma SearchHits<C>(size: Size<C>, e: Entry<C>, longest: nat)
    requires IsLongest(size, e, longest) && forall g :: !Hole(size, e, longest, g)
    ensures Search(size, e, 0, |e.content|, 0) == longest
  {
    hide Fits, Search;
    forall n: nat | n <= |e.content| ensures Fits(size, e, n) <==> n <= longest {
      assert !Hole(size, e, longest, n);
    }
    assert FitsBut(size, e, 0, |e.content|, longest, -1);
    hide IsLongest, Hole, FitsBut;
    SearchFinds(size, e, 0, |e.content|, 0, longest);
  }

  /** Exactly when the search misses the longest prefix that fits, told from the content:
      a shorter one splits a surrogate pair and does not fit, and the bisection looks at it
      before it looks at the longer ones. It then ends just before the pair. */
  lemma CutIsLongestIff<C>(h: Head, call: C -> Text, e: Entry<C>, longest: nat)
    requires IsLongest(SizeIn(h, call), e, longest)
    ensures var size, k := SizeIn(h, call), |e.content|; var m := Search(size, e, 0, k, 0);
            && (m != longest <==> exists g :: Hole(size, e, longest, g) && FirstMet(0, k, g, longest) == g)
            && (m != longest ==> Hole(size, e, longest, m + 1) && Splits(e.content, m + 1))
  {
    var size := SizeIn(h, call);
    hide SizeIn, IsLongest, Search, FirstMet, Fits;
    if g :| Hole(size, e, longest, g) {
      HoleSplits(h, call, e, longest, g);
      forall f | Hole(size, e, longest, f) ensures f == g { OneHole(h, call, e, longest, g, f); }
      SearchMisses(size, e, longest, g);
    } else {
      SearchHits(size, e, longest);
    }
  }

  // ---- the failing inputs ----

  /** Bisection always looks at the last place but one before the last. */
  lemma {:induction false} LastButOneFirst(lo: nat, hi: nat)
    requires lo < hi
    ensures FirstMet(lo, hi, hi - 1, hi) == hi - 1
    decreases hi - lo
  {
    if Middle(lo, hi) < hi - 1 { LastButOneFirst(Middle(lo, hi) + 1, hi); }
  }

  /** Content that ends in a surrogate pair, fits whole, and does not fit with half of it:
      the search returns it without the pair. */
  lemma PairAtEndIsLost<C>(h: Head, call: C -> Text, e: Entry<C>)
    requires |e.content| > 1
    requires Fits(SizeIn(h, call), e, |e.content|) && !Fits(SizeIn(h, call), e, |e.content| - 1)
    ensures Search(SizeIn(h, call), e, 0, |e.content|, 0) == |e.content| - 2
  {
    var size, k := SizeIn(h, call), |e.content|;
    hide SizeIn, Fits, Search, FirstMet;
    LastButOneFirst(0, k);
    assert IsLongest(size, e, k) && Hole(size, e, k, k - 1);
    CutIsLongestIff(h, call, e, k);
    var m := Search(size, e, 0, k, 0);
    assert m != k;
    OneHole(h, call, e, k, k - 1, m + 1);
  }

  function Letters(n: nat): (t: Text)
    ensures |t| == n && forall i :: 0 <= i < n ==> t[i] == 0x61
  {
    if n == 0 then [] else Letters(n - 1) + [0x61]
  }

  lemma {:induction false} WidthOfLetters(n: nat)
    ensures Width(Letters(n)) == n
  {
    if n == 0 {
      WidthOfNone();
    } else {
      WidthOfLetters(n - 1);
      WidthConcat(Letters(n - 1), [0x61]);
      WidthOfLetter();
      hide Width;
    }
  }

  lemma WidthOfLetter()
    ensures Width([0x61]) == 1
  {
    assert Body([0x61], 0) == [0x61];
    Utf8Ascii([0x61]);
  }

  /** Such content exists for every entry that leaves room: letters and one emoji, filling
      the cap to the byte. All of it fits; the search gives up the emoji. */
  lemma EmojiIsLost<C>(h: Head, call: C -> Text, e: Entry<C>) returns (s: Text)
    requires EntryBytes(h, call, Cut(e, 0)) + 4 <= HISTORY_ENTRY_BYTE_MAX
    ensures var f := e.(content := s);
            && |s| > 1 && s[|s| - 2..] == [0xD83D, 0xDE00]
            && Small(SizeIn(h, call), Cut(f, |s|))
            && Search(SizeIn(h, call), f, 0, |s|, 0) == |s| - 2
  {
    hide EntryBytes, Letters, SizeIn, Small, Search;
    var n := HISTORY_ENTRY_BYTE_MAX - EntryBytes(h, call, Cut(e, 0)) - 4;
    s := Letters(n) + [0xD83D, 0xDE00];
    var f := e.(content := s);
    assert Cut(f, 0) == Cut(e, 0);
    EmojiFits(h, call, f, n);
    PairAtEndIsLost(h, call, f);
  }

  lemma EmojiFits<C>(h: Head, call: C -> Text, f: Entry<C>, n: nat)
    requires f.content == Letters(n) + [0xD83D, 0xDE00]
    requires EntryBytes(h, call, Cut(f, 0)) + n + 4 == HISTORY_ENTRY_BYTE_MAX
    ensures Fits(SizeIn(h, call), f, n + 2) && !Fits(SizeIn(h, call), f, n + 1)
    ensures f.content[n..] == [0xD83D, 0xDE00]
  {
    hide EntryBytes, Width, Letters, SizeIn, Splits, Fits, Cut;
    EmojiContent(n);
    FitsByWidth(h, call, f, n + 1);
    FitsByWidth(h, call, f, n + 2);
    assert f.content[..n + 2] == f.content;
  }

  lemma EmojiContent(n: nat)
    ensures var s := Letters(n) + [0xD83D, 0xDE00];
            && Splits(s, n + 1) && s[|s| - 2..] == [0xD83D, 0xDE00]
            && Width(s[..n + 1]) == n + 6 && Width(s) == n + 4
  {
    var s, t := Letters(n) + [0xD83D, 0xDE00], Letters(n);
    hide Width, Letters;
    assert s[..n] == t;
    assert s[..n + 2] == s;
    assert s[n] == 0xD83D && s[n + 1] == 0xDE00;
    WidthOfLetters(n);
    WidthAtSplit(s, n + 1);
  }

  // ---- entries of a session log ----

  /** What the builders make: content within its cap, an entry id of 26 units, an ISO
      time, at most one count for each kind and at most 256 calls. Counts of blocks stay
      below 2^53. */
  ghost predicate Built<C>(h: Head, e: Entry<C>) {
    && |e.content| <= HISTORY_CONTENT_CAP && |e.calls| <= HISTORY_PAGE_MAX
    && |h.id| <= 26 && (h.created.Some? ==> |h.created.value| <= 27)
    && |e.omitted| <= 5 && forall i :: 0 <= i < |e.omitted| ==> e.omitted[i].count < 0x20_0000_0000_0000
  }

  function Power10(k: nat): nat {
    if k == 0 then 1 else 10 * Power10(k - 1)
  }

  lemma {:induction false} DigitsBound(n: nat, k: nat)
    requires k > 0 && n < Power10(k)
    ensures |Natural(n)| <= k
  {
    if n >= 10 {
      assert k > 1;
      DigitsBound(n / 10, k - 1);
    }
  }

  lemma {:induction false} PowerSum(j: nat, k: nat)
    ensures Power10(j + k) == Power10(j) * Power10(k)
  {
    if j > 0 { PowerSum(j - 1, k); }
  }

  lemma PowerOf17()
    ensures Power10(17) == 100_000_000_000_000_000
  {
    assert Power10(1) == 10;
    PowerSum(1, 1);
    PowerSum(2, 2);
    PowerSum(4, 4);
    PowerSum(8, 8);
    PowerSum(16, 1);
  }

  predicate Plainly(t: Text) {
    forall i :: 0 <= i < |t| ==> t[i] < 0x80
  }

  lemma OmittedBytes(o: Omitted)
    requires o.count < 0x40_0000_0000_0000
    ensures Plainly(OmittedText(o)) && OmittedText(o) != [] && |OmittedText(o)| <= 50
  {
    hide Natural, Ascii, Power10, KindName;
    CountBytes(o.count);
    KindBytes(o.kind);
    PlainJoin(Ascii("{\"kind\":\""), KindName(o.kind));
    PlainJoin(Ascii("{\"kind\":\"") + KindName(o.kind), Ascii("\",\"count\":"));
    PlainJoin(Ascii("{\"kind\":\"") + KindName(o.kind) + Ascii("\",\"count\":"), Natural(o.count));
  }

  lemma CountBytes(n: nat)
    requires n < 0x40_0000_0000_0000
    ensures Plainly(Natural(n)) && |Natural(n)| <= 17
  {
    hide Natural, Power10;
    PowerOf17();
    DigitsBound(n, 17);
  }

  lemma KindBytes(k: Kind)
    ensures Plainly(KindName(k)) && |KindName(k)| <= 8
  {
    hide Ascii;
  }

  lemma PlainJoin(s: Text, t: Text)
    requires Plainly(s) && Plainly(t)
    ensures Plainly(s + t)
  {
  }

  lemma {:induction false} OmittedListBytes(omitted: seq<Omitted>)
    requires forall i :: 0 <= i < |omitted| ==> omitted[i].count < 0x40_0000_0000_0000
    ensures Plainly(ListText(OmittedTexts(omitted))) && |ListText(OmittedTexts(omitted))| <= 51 * |omitted|
    ensures |OmittedTexts(omitted)| == |omitted|
  {
    if omitted != [] {
      var first, rest := OmittedText(omitted[0]), OmittedTexts(omitted[1..]);
      OmittedBytes(omitted[0]);
      OmittedListBytes(omitted[1..]);
      assert OmittedTexts(omitted) == [first] + rest;
      assert ([first] + rest)[1..] == rest;
      assert ListText(OmittedTexts(omitted)) == if rest == [] then first else first + [COMMA] + ListText(rest);
      hide OmittedText, OmittedTexts, ListText;
    }
  }

  lemma PlainBytes(t: Text)
    requires Plainly(t)
    ensures |Utf8(t)| == |t| && (t != [] ==> !High(t[|t| - 1]))
  {
    Utf8Ascii(t);
  }

  /** Plain text around a quoted one. */
  lemma AroundQuote(x: Text, q: Text, y: Text)
    requires Plainly(x) && Plainly(y)
    ensures |Utf8(x + Quote(q) + y)| <= |x| + 6 * |q| + 2 + |y|
    ensures y != [] ==> !High((x + Quote(q) + y)[|x + Quote(q) + y| - 1])
  {
    hide Quote, Utf8;
    QuoteBytes(q);
    WidthBound(q);
    PlainBytes(x);
    PlainBytes(y);
    BytesConcat(x, Quote(q));
    BytesConcat(x + Quote(q), y);
  }

  lemma BeforeBytes(h: Head)
    requires |h.id| <= 26
    ensures |Utf8(Before(h))| <= 300
  {
    var x, y := Ascii("{\"entry_id\":"), Ascii(",\"role\":\"") + Ascii(if h.assistant then "assistant" else "user") + Ascii("\",\"content\":");
    hide Quote, Ascii, Utf8;
    AroundQuote(x, h.id, y);
    assert Before(h) == x + Quote(h.id) + y;
  }

  lemma CreatedBytes(h: Head)
    requires h.created.Some? ==> |h.created.value| <= 27
    ensures var t := Ascii(",\"created_at\":") + (if h.created.Some? then Quote(h.created.value) else NULL);
            |Utf8(t)| <= 200 && t != [] && !High(t[|t| - 1])
  {
    hide Quote, Ascii, Utf8;
    var x := Ascii(",\"created_at\":");
    if h.created.Some? {
      AroundQuote(x, h.created.value, []);
      QuoteBytes(h.created.value);
      assert x + Quote(h.created.value) + [] == x + Quote(h.created.value);
    } else {
      PlainBytes(x + NULL);
    }
  }

  /** Without calls, what follows the content is short. */
  lemma FollowingBytes<C>(h: Head, call: C -> Text, e: Entry<C>)
    requires h.created.Some? ==> |h.created.value| <= 27
    requires e.calls == [] && |e.omitted| <= 6 && forall i :: 0 <= i < |e.omitted| ==> e.omitted[i].count < 0x40_0000_0000_0000
    ensures |Utf8(Following(h, call, e))| <= 1000
  {
    hide Quote, Ascii, Utf8, ListText, OmittedTexts;
    var t := Ascii(",\"created_at\":") + (if h.created.Some? then Quote(h.created.value) else NULL);
    var cut := if e.truncated then Ascii(",\"content_truncated\":true") else [];
    var list := ListText(OmittedTexts(e.omitted));
    var omitted := if e.omitted != [] then Ascii(",\"omitted\":[") + list + Ascii("]") else [];
    CreatedBytes(h);
    OmittedListBytes(e.omitted);
    var u := cut + omitted + Ascii("}");
    PlainRest(cut, list, omitted);
    PlainBytes(u);
    BytesConcat(t, u);
    assert Following(h, call, e) == t + cut + omitted + [] + Ascii("}");
    Regroup(t, cut, omitted, Ascii("}"));
  }

  lemma PlainRest(cut: Text, list: Text, omitted: Text)
    requires cut == Ascii(",\"content_truncated\":true") || cut == []
    requires omitted == Ascii(",\"omitted\":[") + list + Ascii("]") || omitted == []
    requires Plainly(list) && |list| <= 6 * 51
    ensures Plainly(cut + omitted + Ascii("}")) && |cut + omitted + Ascii("}")| <= 400
  {
    hide Ascii;
  }

  lemma Regroup(t: Text, cut: Text, omitted: Text, close: Text)
    ensures t + cut + omitted + [] + close == t + (cut + omitted + close)
  {
  }

  /** An entry that a builder made fits once its calls are gone, so its content is never
      cut: bounding keeps content, a prefix of the calls, and every count. */
  lemma BuiltEntryIsBounded<C>(h: Head, call: C -> Text, e: Entry<C>, r: Entry<C>)
    requires Built(h, e) && IsBounded(SizeIn(h, call), e, r)
    ensures Small(SizeIn(h, call), r)
    ensures r.content == e.content && r.truncated == e.truncated
    ensures |r.calls| <= |e.calls| && r.calls == e.calls[..|r.calls|]
    ensures |r.calls| + CountOf(r.omitted, Other) == |e.calls| + CountOf(e.omitted, Other)
    ensures forall k: Kind :: !k.Other? ==> CountOf(r.omitted, k) == CountOf(e.omitted, k)
    ensures forall j :: |r.calls| < j <= |e.calls| ==> !Small(SizeIn(h, call), Keep(e, j))
    ensures forall again :: IsBounded(SizeIn(h, call), r, again) ==> again == r
  {
    WithoutCallsFits(h, call, e);
    hide SizeIn;
    KeptWhole(SizeIn(h, call), e, r);
  }

  /** An entry that fits without its calls. */
  lemma KeptWhole<C>(size: Size<C>, e: Entry<C>, r: Entry<C>)
    requires Small(size, Keep(e, 0)) && IsBounded(size, e, r)
    ensures Small(size, r)
    ensures r.content == e.content && r.truncated == e.truncated
    ensures |r.calls| <= |e.calls| && r.calls == e.calls[..|r.calls|]
    ensures |r.calls| + CountOf(r.omitted, Other) == |e.calls| + CountOf(e.omitted, Other)
    ensures forall k: Kind :: !k.Other? ==> CountOf(r.omitted, k) == CountOf(e.omitted, k)
    ensures forall j :: |r.calls| < j <= |e.calls| ==> !Small(size, Keep(e, j))
  {
    hide AddOther, CountOf;
    if !Small(size, e) {
      var k: nat :| k <= |e.calls| && LongestKept(size, e, k) && Settled(size, Keep(e, k), r);
      assert Small(size, Keep(e, k)) && r == Keep(e, k);
      hide Keep;
      forall x: Kind
        ensures CountOf(Keep(e, k).omitted, x) == CountOf(e.omitted, x) + if x.Other? then |e.calls| - k else 0
      {
        KeepFacts(e, k, x);
      }
      KeepFacts(e, k, Other);
    } else {
      assert e.calls[..|e.calls|] == e.calls;
    }
  }

  lemma WithoutCallsFits<C>(h: Head, call: C -> Text, e: Entry<C>)
    requires Built(h, e)
    ensures Small(SizeIn(h, call), Keep(e, 0))
  {
    var f := Keep(e, 0);
    WithoutCalls(h, e);
    ContentAddsWidth(h, call, f);
    BeforeBytes(h);
    WidthBound(e.content);
    FollowingBytes(h, call, f);
    hide EntryBytes, Before, Following, Keep;
  }

  lemma WithoutCalls<C>(h: Head, e: Entry<C>)
    requires Built(h, e)
    ensures var f := Keep(e, 0);
            && f.content == e.content && f.calls == [] && |f.omitted| <= 6
            && forall i :: 0 <= i < |f.omitted| ==> f.omitted[i].count < 0x40_0000_0000_0000
  {
    if |e.calls| > 0 {
      var i := FindOther(e.omitted);
      var n := |e.calls|;
      var grown := if i >= 0 then e.omitted[i := Omitted(Other, e.omitted[i].count + n)] else e.omitted + [Omitted(Other, n)];
      SortKeeps(grown, 0x40_0000_0000_0000);
    }
  }

  lemma {:induction false} InsertKeeps(o: Omitted, sorted: seq<Omitted>, bound: nat)
    requires o.count < bound && forall i :: 0 <= i < |sorted| ==> sorted[i].count < bound
    ensures forall i :: 0 <= i < |Insert(o, sorted)| ==> Insert(o, sorted)[i].count < bound
  {
    if sorted != [] && Rank(sorted[|sorted| - 1].kind) > Rank(o.kind) { InsertKeeps(o, sorted[..|sorted| - 1], bound); }
  }

  lemma {:induction false} SortKeeps(omitted: seq<Omitted>, bound: nat)
    requires forall i :: 0 <= i < |omitted| ==> omitted[i].count < bound
    ensures |SortOmitted(omitted)| == |omitted|
    ensures forall i :: 0 <= i < |SortOmitted(omitted)| ==> SortOmitted(omitted)[i].count < bound
  {
    if omitted != [] {
      SortKeeps(omitted[..|omitted| - 1], bound);
      InsertKeeps(omitted[|omitted| - 1], SortOmitted(omitted[..|omitted| - 1]), bound);
    }
  }
}
