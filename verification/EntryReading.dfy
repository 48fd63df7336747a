/** The text whose bytes are counted for an entry is a JSON text of that entry: a JSON
    reader finds in it exactly the members an entry is sent with. */
module EntryReading {
  import opened Options
  import opened CanonicalText
  import opened CanonicalJson
  import opened CanonicalReading
  import opened Utf8Text
  import opened EntryBounding
  import opened EntrySizes

  // ---- what an entry says ----

  function KindText(k: Kind): string {
    match k
    case Image => "image"
    case Document => "document"
    case Thinking => "thinking"
    case Fallback => "fallback"
    case Other => "other"
  }

  function OmittedValue(o: Omitted): Value {
    VObj(map[Ascii("kind") := VStr(Ascii(KindText(o.kind))), Ascii("count") := VNum(o.count)])
  }

  /** One member more, if there is something to say. */
  function MaybeMember(said: bool, k: Text, v: Value, m: map<Text, Value>): map<Text, Value> {
    if said then map[k := v] + m else m
  }

  /** The members of an entry; the last three only when there is something to say. */
  function EntryMembers<C>(h: Head, e: Entry<C>, omitted: seq<Value>, calls: seq<Value>): map<Text, Value> {
    map[Ascii("entry_id") := VStr(h.id)]
    + (map[Ascii("role") := VStr(Ascii(if h.assistant then "assistant" else "user"))]
       + (map[Ascii("content") := VStr(e.content)]
          + (map[Ascii("created_at") := if h.created.Some? then VStr(h.created.value) else VNull]
             + MaybeMember(e.truncated, Ascii("content_truncated"), VBool(true),
                 MaybeMember(e.omitted != [], Ascii("omitted"), VArr(omitted),
                   MaybeMember(e.calls != [], Ascii("tool_calls"), VArr(calls), map[]))))))
  }

  // ---- reading parts ----

  /** Before any separator the text reads as the value. */
  ghost predicate Reads(t: Text, v: Value) {
    forall x: Text :: Ends(x) ==> ReadValue(t + x) == Some(Read(v, x))
  }

  /** The text reads as these members, up to and with the closing brace. */
  ghost predicate ReadsMembers(t: Text, m: map<Text, Value>) {
    forall x: Text :: ReadMembers(t + x) == Some(Read(m, x))
  }

  /** What follows a member: the closing brace, or a comma and more members. */
  ghost predicate Continues(t: Text, m: map<Text, Value>) {
    (t == [RBRACE] && m == map[]) || (t != [] && t[0] == COMMA && ReadsMembers(t[1..], m))
  }

  lemma StringReads(s: Text)
    ensures Reads(Quote(s), VStr(s))
  {
    hide ReadUnits, ReadItems, ReadMembers, ReadNumber;
    forall x: Text | Ends(x) ensures ReadValue(Quote(s) + x) == Some(Read(VStr(s), x)) { QuoteReads(s, x); }
  }

  lemma CountReads(n: nat)
    ensures Reads(Natural(n), VNum(n))
  {
    hide Natural;
    forall x: Text | Ends(x) ensures ReadValue(Natural(n) + x) == Some(Read(VNum(n), x)) { NumberReads(n, x); }
  }

  lemma WordsRead()
    ensures Reads(NULL, VNull) && Reads(TRUE, VBool(true))
  {
    forall x: Text ensures ReadValue(NULL + x) == Some(Read(VNull, x)) { WordReads(NULL, x); }
    forall x: Text ensures ReadValue(TRUE + x) == Some(Read(VBool(true), x)) { WordReads(TRUE, x); }
  }

  /** One member, and what follows it. */
  lemma MemberReads(k: Text, vt: Text, v: Value, t: Text, m: map<Text, Value>)
    requires Reads(vt, v) && Continues(t, m)
    ensures ReadsMembers(Quote(k) + [COLON] + vt + t, map[k := v] + m)
  {
    forall x: Text ensures ReadMembers(Quote(k) + [COLON] + vt + t + x) == Some(Read(map[k := v] + m, x)) {
      MemberReadsAt(k, vt, v, t, m, x);
    }
  }

  lemma MemberReadsAt(k: Text, vt: Text, v: Value, t: Text, m: map<Text, Value>, x: Text)
    requires Reads(vt, v) && Continues(t, m)
    ensures ReadMembers(Quote(k) + [COLON] + vt + t + x) == Some(Read(map[k := v] + m, x))
  {
    hide Quote, ReadUnits, ReadValue;
    var after := [COLON] + (vt + (t + x));
    assert Quote(k) + [COLON] + vt + t + x == Quote(k) + after;
    QuoteReads(k, after);
    assert after[1..] == vt + (t + x);
    assert ReadValue(vt + (t + x)) == Some(Read(v, t + x));
    assert (t + x)[0] == t[0];
    if t == [RBRACE] && m == map[] {
      assert (t + x)[1..] == x && map[k := v] + m == map[k := v];
    } else {
      assert (t + x)[1..] == t[1..] + x;
      assert ReadMembers(t[1..] + x) == Some(Read(m, x));
    }
  }

  lemma ObjectReads(t: Text, m: map<Text, Value>)
    requires t != [] && t[0] == QUOTE && ReadsMembers(t, m)
    ensures Reads([LBRACE] + t, VObj(m))
  {
    hide ReadMembers;
    forall x: Text ensures ReadValue([LBRACE] + t + x) == Some(Read(VObj(m), x)) {
      var all := [LBRACE] + t + x;
      assert all[1..] == t + x && all[1] == QUOTE;
    }
  }

  // ---- lists ----

  lemma FirstOfValue(t: Text, v: Value)
    requires Reads(t, v)
    ensures t != [] && t[0] != RBRACKET
  {
    assert t + [] == t && ReadValue(t) == Some(Read(v, []));
    hide ReadUnits, ReadItems, ReadMembers, DecimalValue;
  }

  /** Each text reads as its value. */
  ghost predicate AllRead(ts: seq<Text>, vs: seq<Value>) {
    |ts| == |vs| && forall i :: 0 <= i < |ts| ==> Reads(ts[i], vs[i])
  }

  lemma AllReadFirst(ts: seq<Text>, vs: seq<Value>)
    requires AllRead(ts, vs) && ts != []
    ensures |vs| == |ts| && Reads(ts[0], vs[0]) && AllRead(ts[1..], vs[1..])
  {
    hide Reads;
  }

  lemma LastItem(t: Text, v: Value, x: Text)
    requires ReadValue(t) == Some(Read(v, [RBRACKET] + x))
    ensures ReadItems(t) == Some(Read([v], x))
  {
    hide ReadValue;
    assert ([RBRACKET] + x)[1..] == x;
  }

  lemma MoreItems(t: Text, v: Value, u: Text, vs: seq<Value>, x: Text)
    requires ReadValue(t) == Some(Read(v, [COMMA] + u)) && ReadItems(u) == Some(Read(vs, x))
    ensures ReadItems(t) == Some(Read([v] + vs, x))
  {
    hide ReadValue;
    assert ([COMMA] + u)[1..] == u;
  }

  lemma {:induction false} ItemsReadAs(ts: seq<Text>, vs: seq<Value>, x: Text)
    requires ts != [] && AllRead(ts, vs)
    ensures ReadItems(ListText(ts) + ([RBRACKET] + x)) == Some(Read(vs, x))
    decreases |ts|
  {
    hide ReadValue, ReadItems, ListText, Reads, AllRead;
    AllReadFirst(ts, vs);
    if |ts| == 1 {
      OneItem(ts, vs, x);
    } else {
      ItemsReadAs(ts[1..], vs[1..], x);
      FirstItem(ts, vs, x);
    }
  }

  lemma OneItem(ts: seq<Text>, vs: seq<Value>, x: Text)
    requires |ts| == |vs| == 1 && Reads(ts[0], vs[0])
    ensures ReadItems(ListText(ts) + ([RBRACKET] + x)) == Some(Read(vs, x))
  {
    hide ReadValue, ReadItems, Reads;
    ReadsBefore(ts[0], vs[0], [RBRACKET] + x);
    LastItem(ts[0] + ([RBRACKET] + x), vs[0], x);
    assert vs == [vs[0]];
  }

  lemma FirstItem(ts: seq<Text>, vs: seq<Value>, x: Text)
    requires |ts| == |vs| > 1 && Reads(ts[0], vs[0])
    requires ReadItems(ListText(ts[1..]) + ([RBRACKET] + x)) == Some(Read(vs[1..], x))
    ensures ReadItems(ListText(ts) + ([RBRACKET] + x)) == Some(Read(vs, x))
  {
    hide ReadValue, ReadItems, Reads, ListText;
    var more := ListText(ts[1..]) + ([RBRACKET] + x);
    ReadsBefore(ts[0], vs[0], [COMMA] + more);
    MoreItems(ts[0] + ([COMMA] + more), vs[0], more, vs[1..], x);
    ListSplit(ts, x);
    assert vs == [vs[0]] + vs[1..];
  }

  lemma ReadsBefore(t: Text, v: Value, x: Text)
    requires Reads(t, v) && Ends(x)
    ensures ReadValue(t + x) == Some(Read(v, x))
  {
  }

  lemma ListSplit(ts: seq<Text>, x: Text)
    requires |ts| > 1
    ensures ListText(ts) + ([RBRACKET] + x) == ts[0] + ([COMMA] + (ListText(ts[1..]) + ([RBRACKET] + x)))
  {
    Joined(ts[0], ListText(ts[1..]), [RBRACKET] + x);
  }

  lemma Joined(a: Text, b: Text, c: Text)
    ensures (a + [COMMA] + b) + c == a + ([COMMA] + (b + c))
  {
  }

  lemma ListReads(ts: seq<Text>, vs: seq<Value>)
    requires ts != [] && AllRead(ts, vs)
    ensures Reads([LBRACKET] + ListText(ts) + [RBRACKET], VArr(vs))
  {
    hide ReadItems, Reads, ListText, AllRead;
    FirstOfList(ts, vs);
    forall x: Text ensures ReadValue([LBRACKET] + ListText(ts) + [RBRACKET] + x) == Some(Read(VArr(vs), x)) {
      var all := [LBRACKET] + ListText(ts) + [RBRACKET] + x;
      assert all[1..] == ListText(ts) + ([RBRACKET] + x) && all[1] == ListText(ts)[0];
      ItemsReadAs(ts, vs, x);
    }
    AllReads([LBRACKET] + ListText(ts) + [RBRACKET], VArr(vs));
  }

  lemma AllReads(t: Text, v: Value)
    requires forall x: Text :: ReadValue(t + x) == Some(Read(v, x))
    ensures Reads(t, v)
  {
  }

  lemma FirstOfList(ts: seq<Text>, vs: seq<Value>)
    requires ts != [] && AllRead(ts, vs)
    ensures ListText(ts) != [] && ListText(ts)[0] != RBRACKET
  {
    AllReadFirst(ts, vs);
    FirstOfValue(ts[0], vs[0]);
    hide Reads;
  }

  // ---- literals ----

  predicate Bare(s: Text) {
    forall i :: 0 <= i < |s| ==> 0x20 <= s[i] < 0x80 && s[i] != QUOTE && s[i] != BACKSLASH
  }

  lemma {:induction false} BareFrom(s: Text, i: nat)
    requires Bare(s) && i <= |s|
    ensures QuoteFrom(s, i) == s[i..] + [QUOTE]
    decreases |s| - i
  {
    if i < |s| { BareFrom(s, i + 1); }
  }

  /** A bare word between quotes is that word quoted. */
  lemma BareQuote(s: Text)
    requires Bare(s)
    ensures [QUOTE] + s + [QUOTE] == Quote(s)
  {
    BareFrom(s, 0);
    assert s[0..] == s;
  }

  lemma IdName()
    ensures Bare(Ascii("entry_id")) && Bare(Ascii("content"))
    ensures Ascii("{\"entry_id\":") == [LBRACE] + ([QUOTE] + Ascii("entry_id") + [QUOTE]) + [COLON]
  {
    hide Ascii;
  }

  lemma RoleName()
    ensures Bare(Ascii("role"))
    ensures Ascii(",\"role\":\"") == [COMMA] + ([QUOTE] + Ascii("role") + [QUOTE]) + [COLON] + [QUOTE]
  {
    hide Ascii;
  }

  lemma ContentName()
    ensures Bare(Ascii("assistant")) && Bare(Ascii("user"))
    ensures Ascii("\",\"content\":") == [QUOTE] + [COMMA] + ([QUOTE] + Ascii("content") + [QUOTE]) + [COLON]
  {
    hide Ascii;
  }

  lemma CreatedName()
    ensures Bare(Ascii("created_at"))
    ensures Ascii(",\"created_at\":") == [COMMA] + ([QUOTE] + Ascii("created_at") + [QUOTE]) + [COLON]
  {
    hide Ascii;
  }

  lemma TruncatedBare()
    ensures Bare(Ascii("content_truncated"))
  {
    hide Ascii;
  }

  lemma TruncatedName()
    ensures Ascii(",\"content_truncated\":true") == [COMMA] + ([QUOTE] + Ascii("content_truncated") + [QUOTE]) + [COLON] + TRUE
  {
    hide Ascii;
  }

  lemma OmittedName()
    ensures Bare(Ascii("omitted"))
    ensures Ascii(",\"omitted\":[") == [COMMA] + ([QUOTE] + Ascii("omitted") + [QUOTE]) + [COLON] + [LBRACKET]
  {
    hide Ascii;
  }

  lemma CallsName()
    ensures Bare(Ascii("tool_calls"))
    ensures Ascii(",\"tool_calls\":[") == [COMMA] + ([QUOTE] + Ascii("tool_calls") + [QUOTE]) + [COLON] + [LBRACKET]
    ensures Ascii("]") == [RBRACKET] && Ascii("}") == [RBRACE]
  {
    hide Ascii;
  }

  lemma KindNames(k: Kind)
    ensures Bare(Ascii(KindText(k))) && KindName(k) == Ascii(KindText(k))
  {
    hide Ascii;
  }

  lemma KindMember()
    ensures Bare(Ascii("kind")) && Ascii("}") == [RBRACE]
    ensures Ascii("{\"kind\":\"") == [LBRACE] + ([QUOTE] + Ascii("kind") + [QUOTE]) + [COLON] + [QUOTE]
  {
    hide Ascii;
  }

  lemma CountMember()
    ensures Bare(Ascii("count"))
    ensures Ascii("\",\"count\":") == [QUOTE] + [COMMA] + ([QUOTE] + Ascii("count") + [QUOTE]) + [COLON]
  {
    hide Ascii;
  }

  // ---- the entry ----

  lemma NothingMore()
    ensures Continues([RBRACE], map[])
  {
  }

  /** A further member. */
  lemma OneMore(k: Text, vt: Text, v: Value, t: Text, m: map<Text, Value>)
    requires Reads(vt, v) && Continues(t, m)
    ensures Continues([COMMA] + Quote(k) + [COLON] + vt + t, map[k := v] + m)
  {
    MemberReads(k, vt, v, t, m);
    hide Quote, ReadsMembers;
    var u := [COMMA] + Quote(k) + [COLON] + vt + t;
    assert u[1..] == Quote(k) + [COLON] + vt + t;
  }

  lemma OmittedReads(o: Omitted)
    ensures Reads(OmittedText(o), OmittedValue(o))
  {
    hide Reads, Ascii, Quote, Natural, Continues, ReadsMembers, Bare;
    var kind, count, name := Ascii("kind"), Ascii("count"), Ascii(KindText(o.kind));
    KindNames(o.kind);
    KindMember();
    CountMember();
    BareQuote(kind);
    BareQuote(count);
    BareQuote(name);
    CountReads(o.count);
    StringReads(name);
    NothingMore();
    OneMore(count, Natural(o.count), VNum(o.count), [RBRACE], map[]);
    var t := [COMMA] + Quote(count) + [COLON] + Natural(o.count) + [RBRACE];
    MemberReads(kind, Quote(name), VStr(name), t, map[count := VNum(o.count)] + map[]);
    var all := Quote(kind) + [COLON] + Quote(name) + t;
    assert all[0] == QUOTE by { assert Quote(kind)[0] == QUOTE; }
    ObjectReads(all, map[kind := VStr(name)] + (map[count := VNum(o.count)] + map[]));
    OmittedRegroups(Quote(kind), Quote(name), Quote(count), Natural(o.count), kind, name, count);
    assert map[kind := VStr(name)] + (map[count := VNum(o.count)] + map[]) == map[kind := VStr(name), count := VNum(o.count)] by {
      assert |kind| == 4 && |count| == 5;
    }
  }

  lemma OmittedRegroups(qk: Text, qn: Text, qc: Text, n: Text, kind: Text, name: Text, count: Text)
    requires qk == [QUOTE] + kind + [QUOTE] && qn == [QUOTE] + name + [QUOTE] && qc == [QUOTE] + count + [QUOTE]
    ensures [LBRACE] + (qk + [COLON] + qn + ([COMMA] + qc + [COLON] + n + [RBRACE])) ==
            ([LBRACE] + ([QUOTE] + kind + [QUOTE]) + [COLON] + [QUOTE]) + name
            + ([QUOTE] + [COMMA] + ([QUOTE] + count + [QUOTE]) + [COLON]) + n + [RBRACE]
  {
  }

  /** The omissions of an entry, as values. */
  function OmittedValues(omitted: seq<Omitted>): seq<Value> {
    seq(|omitted|, i requires 0 <= i < |omitted| => OmittedValue(omitted[i]))
  }

  function CallValues<C>(value: C -> Value, calls: seq<C>): seq<Value> {
    seq(|calls|, i requires 0 <= i < |calls| => value(calls[i]))
  }

  lemma {:induction false} OmittedTextsAre(omitted: seq<Omitted>)
    ensures var ts := OmittedTexts(omitted);
            |ts| == |omitted| && forall i :: 0 <= i < |ts| ==> ts[i] == OmittedText(omitted[i])
  {
    hide OmittedText;
    if omitted != [] { OmittedTextsAre(omitted[1..]); }
  }

  lemma {:induction false} CallTextsAre<C>(call: C -> Text, calls: seq<C>)
    ensures var ts := CallTexts(call, calls);
            |ts| == |calls| && forall i :: 0 <= i < |ts| ==> ts[i] == call(calls[i])
  {
    if calls != [] { CallTextsAre(call, calls[1..]); }
  }

  lemma OmittedListReads(omitted: seq<Omitted>)
    requires omitted != []
    ensures Reads([LBRACKET] + ListText(OmittedTexts(omitted)) + [RBRACKET], VArr(OmittedValues(omitted)))
  {
    hide Reads, OmittedText, OmittedValue;
    OmittedTextsAre(omitted);
    forall i | 0 <= i < |omitted| ensures Reads(OmittedTexts(omitted)[i], OmittedValues(omitted)[i]) { OmittedReads(omitted[i]); }
    ListReads(OmittedTexts(omitted), OmittedValues(omitted));
  }

  lemma CallListReads<C>(call: C -> Text, value: C -> Value, calls: seq<C>)
    requires calls != [] && forall i :: 0 <= i < |calls| ==> Reads(call(calls[i]), value(calls[i]))
    ensures Reads([LBRACKET] + ListText(CallTexts(call, calls)) + [RBRACKET], VArr(CallValues(value, calls)))
  {
    hide Reads;
    CallTextsAre(call, calls);
    ListReads(CallTexts(call, calls), CallValues(value, calls));
  }

  /** What follows a member when more may be said under a name. */
  function Maybe(said: bool, k: Text, vt: Text, t: Text): Text {
    if said then [COMMA] + Quote(k) + [COLON] + vt + t else t
  }

  lemma MaybeMore(said: bool, k: Text, vt: Text, v: Value, t: Text, m: map<Text, Value>)
    requires (said ==> Reads(vt, v)) && Continues(t, m)
    ensures Continues(Maybe(said, k, vt, t), MaybeMember(said, k, v, m))
  {
    hide Reads, Continues;
    if said { OneMore(k, vt, v, t, m); }
  }

  /** The members after the content, from the last to the first. */
  lemma FollowingReads<C>(h: Head, call: C -> Text, value: C -> Value, e: Entry<C>) returns (m: map<Text, Value>)
    requires forall i :: 0 <= i < |e.calls| ==> Reads(call(e.calls[i]), value(e.calls[i]))
    ensures Continues(Following(h, call, e), m)
    ensures m == map[Ascii("created_at") := if h.created.Some? then VStr(h.created.value) else VNull]
                 + (MaybeMember(e.truncated, Ascii("content_truncated"), VBool(true),
                      MaybeMember(e.omitted != [], Ascii("omitted"), VArr(OmittedValues(e.omitted)),
                        MaybeMember(e.calls != [], Ascii("tool_calls"), VArr(CallValues(value, e.calls)), map[]))))
  {
    hide Reads, Continues, Quote, Ascii, Maybe, MaybeMember, Following, ListText, OmittedTexts, CallTexts, Bare;
    var calls := [LBRACKET] + ListText(CallTexts(call, e.calls)) + [RBRACKET];
    var omitted := [LBRACKET] + ListText(OmittedTexts(e.omitted)) + [RBRACKET];
    var created := if h.created.Some? then Quote(h.created.value) else NULL;
    var createdValue := if h.created.Some? then VStr(h.created.value) else VNull;
    WordsRead();
    if h.created.Some? { StringReads(h.created.value); }
    if e.omitted != [] { OmittedListReads(e.omitted); }
    if e.calls != [] { CallListReads(call, value, e.calls); }
    NothingMore();
    var t1, m1 := Maybe(e.calls != [], Ascii("tool_calls"), calls, [RBRACE]),
                  MaybeMember(e.calls != [], Ascii("tool_calls"), VArr(CallValues(value, e.calls)), map[]);
    MaybeMore(e.calls != [], Ascii("tool_calls"), calls, VArr(CallValues(value, e.calls)), [RBRACE], map[]);
    var t2, m2 := Maybe(e.omitted != [], Ascii("omitted"), omitted, t1),
                  MaybeMember(e.omitted != [], Ascii("omitted"), VArr(OmittedValues(e.omitted)), m1);
    MaybeMore(e.omitted != [], Ascii("omitted"), omitted, VArr(OmittedValues(e.omitted)), t1, m1);
    var t3, m3 := Maybe(e.truncated, Ascii("content_truncated"), TRUE, t2),
                  MaybeMember(e.truncated, Ascii("content_truncated"), VBool(true), m2);
    MaybeMore(e.truncated, Ascii("content_truncated"), TRUE, VBool(true), t2, m2);
    OneMore(Ascii("created_at"), created, createdValue, t3, m3);
    m := map[Ascii("created_at") := createdValue] + m3;
    FollowingIs(h, call, e);
  }

  /** The same text, member by member. */
  lemma FollowingIs<C>(h: Head, call: C -> Text, e: Entry<C>)
    ensures Following(h, call, e) ==
            [COMMA] + Quote(Ascii("created_at")) + [COLON] + (if h.created.Some? then Quote(h.created.value) else NULL)
            + Maybe(e.truncated, Ascii("content_truncated"), TRUE,
                Maybe(e.omitted != [], Ascii("omitted"), [LBRACKET] + ListText(OmittedTexts(e.omitted)) + [RBRACKET],
                  Maybe(e.calls != [], Ascii("tool_calls"), [LBRACKET] + ListText(CallTexts(call, e.calls)) + [RBRACKET], [RBRACE])))
  {
    hide Ascii, Quote, ListText, OmittedTexts, CallTexts, Bare, Maybe;
    CreatedName();
    CallsName();
    BareQuote(Ascii("created_at"));
    var created := if h.created.Some? then Quote(h.created.value) else NULL;
    var truncated := if e.truncated then Ascii(",\"content_truncated\":true") else [];
    var omitted := if e.omitted != [] then Ascii(",\"omitted\":[") + ListText(OmittedTexts(e.omitted)) + Ascii("]") else [];
    var calls := if e.calls != [] then Ascii(",\"tool_calls\":[") + ListText(CallTexts(call, e.calls)) + Ascii("]") else [];
    MaybeCalls(e.calls != [], ListText(CallTexts(call, e.calls)), [RBRACE]);
    MaybeOmitted(e.omitted != [], ListText(OmittedTexts(e.omitted)), calls + [RBRACE]);
    MaybeTruncated(e.truncated, omitted + (calls + [RBRACE]));
    assert Following(h, call, e) == Ascii(",\"created_at\":") + created + truncated + omitted + calls + Ascii("}");
    hide Following;
    Pieces(Ascii(",\"created_at\":"), created, truncated, omitted, calls, [RBRACE]);
  }

  lemma Pieces(a: Text, b: Text, c: Text, d: Text, e: Text, f: Text)
    ensures a + b + c + d + e + f == a + b + (c + (d + (e + f)))
  {
  }

  lemma MaybeTruncated(said: bool, t: Text)
    ensures (if said then Ascii(",\"content_truncated\":true") else []) + t == Maybe(said, Ascii("content_truncated"), TRUE, t)
  {
    hide Ascii, Quote, Bare;
    TruncatedBare();
    TruncatedName();
    BareQuote(Ascii("content_truncated"));
    assert [] + t == t;
  }

  lemma MaybeOmitted(said: bool, items: Text, t: Text)
    ensures (if said then Ascii(",\"omitted\":[") + items + Ascii("]") else []) + t
            == Maybe(said, Ascii("omitted"), [LBRACKET] + items + [RBRACKET], t)
  {
    hide Ascii, Quote, Bare;
    OmittedName();
    CallsName();
    BareQuote(Ascii("omitted"));
    assert [] + t == t;
    ListPiece(Quote(Ascii("omitted")), items, t);
  }

  lemma MaybeCalls(said: bool, items: Text, t: Text)
    ensures (if said then Ascii(",\"tool_calls\":[") + items + Ascii("]") else []) + t
            == Maybe(said, Ascii("tool_calls"), [LBRACKET] + items + [RBRACKET], t)
  {
    hide Ascii, Quote, Bare;
    CallsName();
    BareQuote(Ascii("tool_calls"));
    assert [] + t == t;
    ListPiece(Quote(Ascii("tool_calls")), items, t);
  }

  lemma ListPiece(q: Text, items: Text, t: Text)
    ensures [COMMA] + q + [COLON] + ([LBRACKET] + items + [RBRACKET]) + t
            == ([COMMA] + q + [COLON] + [LBRACKET]) + items + [RBRACKET] + t
  {
  }

  // ---- the whole text ----

  /** The text whose bytes are counted for an entry. */
  ghost function EntryText<C>(h: Head, call: C -> Text, e: Entry<C>): Text {
    Before(h) + Quote(e.content) + Following(h, call, e)
  }

  lemma BeforeIs(h: Head)
    ensures Before(h) == [LBRACE] + Quote(Ascii("entry_id")) + [COLON] + Quote(h.id)
                         + ([COMMA] + Quote(Ascii("role")) + [COLON] + Quote(Ascii(if h.assistant then "assistant" else "user"))
                            + ([COMMA] + Quote(Ascii("content")) + [COLON]))
  {
    hide Ascii, Quote, Bare;
    IdName();
    RoleName();
    ContentName();
    BareQuote(Ascii("entry_id"));
    BareQuote(Ascii("role"));
    BareQuote(Ascii("content"));
    BareQuote(Ascii(if h.assistant then "assistant" else "user"));
  }

  lemma Regrouped(qi: Text, id: Text, qr: Text, role: Text, qc: Text, content: Text, rest: Text)
    ensures [LBRACE] + qi + [COLON] + id + ([COMMA] + qr + [COLON] + role + ([COMMA] + qc + [COLON])) + content + rest
            == [LBRACE] + (qi + [COLON] + id + ([COMMA] + qr + [COLON] + role + ([COMMA] + qc + [COLON] + content + rest)))
  {
  }

  lemma QuoteStarts(s: Text)
    ensures Quote(s) != [] && Quote(s)[0] == QUOTE
  {
  }

  /** What is counted for an entry are the bytes of a text that a JSON reader reads as
      exactly the members of the entry, when it reads the text of each call. */
  lemma EntryReads<C>(h: Head, call: C -> Text, value: C -> Value, e: Entry<C>)
    requires forall i :: 0 <= i < |e.calls| ==> Reads(call(e.calls[i]), value(e.calls[i]))
    ensures EntryBytes(h, call, e) == |Utf8(EntryText(h, call, e))|
    ensures Parse(EntryText(h, call, e)) == Some(VObj(EntryMembers(h, e, OmittedValues(e.omitted), CallValues(value, e.calls))))
  {
    hide Reads, Continues, ReadsMembers, Quote, Ascii, Before, Following, MaybeMember, Utf8, ReadValue;
    var m := FollowingReads(h, call, value, e);
    var role := Ascii(if h.assistant then "assistant" else "user");
    StringReads(h.id);
    StringReads(role);
    StringReads(e.content);
    OneMore(Ascii("content"), Quote(e.content), VStr(e.content), Following(h, call, e), m);
    var t2 := [COMMA] + Quote(Ascii("content")) + [COLON] + Quote(e.content) + Following(h, call, e);
    var m2 := map[Ascii("content") := VStr(e.content)] + m;
    OneMore(Ascii("role"), Quote(role), VStr(role), t2, m2);
    var t3 := [COMMA] + Quote(Ascii("role")) + [COLON] + Quote(role) + t2;
    var m3 := map[Ascii("role") := VStr(role)] + m2;
    MemberReads(Ascii("entry_id"), Quote(h.id), VStr(h.id), t3, m3);
    var t4 := Quote(Ascii("entry_id")) + [COLON] + Quote(h.id) + t3;
    QuoteStarts(Ascii("entry_id"));
    assert t4[0] == Quote(Ascii("entry_id"))[0];
    ObjectReads(t4, map[Ascii("entry_id") := VStr(h.id)] + m3);
    BeforeIs(h);
    Regrouped(Quote(Ascii("entry_id")), Quote(h.id), Quote(Ascii("role")), Quote(role), Quote(Ascii("content")), Quote(e.content),
              Following(h, call, e));
    assert EntryText(h, call, e) == [LBRACE] + t4;
    ParsesWhole([LBRACE] + t4, VObj(map[Ascii("entry_id") := VStr(h.id)] + m3));
  }

  lemma ParsesWhole(t: Text, v: Value)
    requires Reads(t, v)
    ensures Parse(t) == Some(v)
  {
    hide ReadValue;
    assert t + [] == t && ReadValue(t + []) == Some(Read(v, []));
  }
}
