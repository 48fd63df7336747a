/** Canonical JSON is injective and blind to key order: two values have the same
    canonical text exactly when they mean the same. */
module CanonicalTheorems {
  import opened CanonicalText
  import opened CanonicalJson

  // ---- sorting ----

  ghost predicate Sorted(fields: seq<Field>) {
    forall i, j :: 0 <= i < j < |fields| ==> Less(fields[i].key, fields[j].key)
  }

  lemma {:induction false} DefinedDistinct(fields: seq<Field>)
    requires DistinctKeys(fields)
    ensures DistinctKeys(Defined(fields))
  {
    if fields != [] {
      DefinedDistinct(fields[1..]);
      var r := Defined(fields[1..]);
      forall i | 0 <= i < |r| ensures r[i].key != fields[0].key {
        assert r[i] in fields[1..];
      }
    }
  }

  lemma {:induction false} InsertSorted(f: Field, fields: seq<Field>)
    requires Sorted(fields) && forall i :: 0 <= i < |fields| ==> fields[i].key != f.key
    ensures Sorted(Insert(f, fields))
  {
    if fields != [] {
      var tail := Insert(f, fields[1..]);
      if Less(fields[0].key, f.key) {
        InsertSorted(f, fields[1..]);
        forall j | 0 <= j < |tail| ensures Less(fields[0].key, tail[j].key) {
          assert tail[j] == f || tail[j] in fields[1..];
        }
      } else {
        LessTrichotomy(f.key, fields[0].key);
        forall j | 0 < j < |fields| ensures Less(f.key, fields[j].key) {
          LessTransitive(f.key, fields[0].key, fields[j].key);
        }
      }
    }
  }

  lemma {:induction false} SortSorts(fields: seq<Field>)
    requires DistinctKeys(fields)
    ensures Sorted(SortFields(fields))
  {
    if fields != [] {
      var r := SortFields(fields[1..]);
      SortSorts(fields[1..]);
      forall i | 0 <= i < |r| ensures r[i].key != fields[0].key {
        assert r[i] in fields[1..];
      }
      InsertSorted(fields[0], r);
    }
  }

  lemma SortedDistinct(fields: seq<Field>)
    requires Sorted(fields)
    ensures DistinctKeys(fields)
  {
    forall i, j | 0 <= i < j < |fields| ensures fields[i].key != fields[j].key {
      LessTrichotomy(fields[i].key, fields[j].key);
    }
  }

  ghost predicate HasKey(fields: seq<Field>, k: Text) {
    exists i :: 0 <= i < |fields| && fields[i].key == k
  }

  ghost predicate SameKeys(a: seq<Field>, b: seq<Field>) {
    forall k: Text :: HasKey(a, k) <==> HasKey(b, k)
  }

  lemma HeadIsKey(a: seq<Field>)
    ensures a == [] || HasKey(a, a[0].key)
    ensures a == [] ==> forall k :: !HasKey(a, k)
  {
  }

  lemma HeadIsLeast(a: seq<Field>, k: Text)
    requires a != [] && Sorted(a)
    ensures HasKey(a, a[0].key)
    ensures HasKey(a, k) ==> !Less(k, a[0].key)
    ensures HasKey(a[1..], k) <==> HasKey(a, k) && k != a[0].key
  {
    SortedDistinct(a);
    LessTrichotomy(a[0].key, k);
    hide Less;
    if HasKey(a, k) && k != a[0].key {
      var i :| 0 <= i < |a| && a[i].key == k;
      assert a[1..][i - 1].key == k;
    }
    if HasKey(a[1..], k) {
      var i :| 0 <= i < |a[1..]| && a[1..][i].key == k;
      assert a[i + 1].key == k;
    }
  }

  /** A strictly sorted list is determined by its set of keys. */
  lemma {:induction false} SortedUnique(a: seq<Field>, b: seq<Field>)
    requires Sorted(a) && Sorted(b) && SameKeys(a, b)
    ensures |a| == |b| && forall i :: 0 <= i < |a| ==> a[i].key == b[i].key
  {
    HeadIsKey(a);
    HeadIsKey(b);
    if a != [] {
      HeadIsLeast(a, a[0].key);
      assert HasKey(b, a[0].key);
      HeadIsLeast(b, a[0].key);
      HeadIsLeast(a, b[0].key);
      LessTrichotomy(a[0].key, b[0].key);
      assert a[0].key == b[0].key;
      assert Sorted(a[1..]) && Sorted(b[1..]);
      forall k: Text ensures HasKey(a[1..], k) <==> HasKey(b[1..], k) {
        HeadIsLeast(a, k);
        HeadIsLeast(b, k);
      }
      SortedUnique(a[1..], b[1..]);
      hide HasKey, Less, Sorted;
    }
  }

  /** The fields that matter, in the order in which they are written. */
  function Written(fields: seq<Field>): seq<Field> {
    SortFields(Defined(fields))
  }

  lemma WrittenFacts(fields: seq<Field>)
    requires DistinctKeys(fields)
    ensures Sorted(Written(fields)) && DistinctKeys(Written(fields))
    ensures forall f :: f in Written(fields) <==> f in fields && !f.val.JUndefined?
  {
    DefinedDistinct(fields);
    SortSorts(Defined(fields));
    SortedDistinct(Written(fields));
  }

  /** Equal sets of defined fields are written identically, errors included. */
  lemma WrittenUnique(a: seq<Field>, b: seq<Field>)
    requires DistinctKeys(a) && DistinctKeys(b)
    requires forall f: Field :: !f.val.JUndefined? ==> (f in a <==> f in b)
    ensures Written(a) == Written(b)
  {
    hide Less, SortFields, Defined, Sorted, Written;
    WrittenFacts(a);
    WrittenFacts(b);
    var p, q := Written(a), Written(b);
    forall f ensures f in p <==> f in q { }
    MembersFixKeys(p, q);
    SortedUnique(p, q);
    forall i | 0 <= i < |p| ensures p[i] == q[i] {
      assert p[i] in q;
      var j :| 0 <= j < |q| && q[j] == p[i];
    }
  }

  lemma MembersFixKeys(p: seq<Field>, q: seq<Field>)
    requires forall f :: f in p <==> f in q
    ensures SameKeys(p, q)
  {
    forall k: Text ensures HasKey(p, k) ==> HasKey(q, k) {
      if HasKey(p, k) { var i :| 0 <= i < |p| && p[i].key == k; assert p[i] in q; }
    }
    forall k: Text ensures HasKey(q, k) ==> HasKey(p, k) {
      if HasKey(q, k) { var i :| 0 <= i < |q| && q[i].key == k; assert q[i] in p; }
    }
  }

  // ---- meaning of an object ----

  lemma {:induction false} MeanHas(fields: seq<Field>, i: nat)
    requires DistinctKeys(fields) && i < |fields| && !fields[i].val.JUndefined?
    ensures fields[i].key in MeanFields(fields) && MeanFields(fields)[fields[i].key] == Mean(fields[i].val)
  {
    if i > 0 { MeanHas(fields[1..], i - 1); }
  }

  lemma {:induction false} MeanFrom(fields: seq<Field>, k: Text) returns (i: nat)
    requires k in MeanFields(fields)
    ensures i < |fields| && fields[i].key == k && !fields[i].val.JUndefined?
  {
    if fields[0].key == k && !fields[0].val.JUndefined? {
      i := 0;
    } else {
      i := MeanFrom(fields[1..], k);
      i := i + 1;
    }
  }

  lemma MeanSubset(a: seq<Field>, b: seq<Field>, k: Text)
    requires DistinctKeys(a) && DistinctKeys(b)
    requires forall f :: f in a && !f.val.JUndefined? ==> f in b
    requires k in MeanFields(a)
    ensures k in MeanFields(b) && MeanFields(b)[k] == MeanFields(a)[k]
  {
    var i := MeanFrom(a, k);
    MeanHas(a, i);
    assert a[i] in b;
    var j :| 0 <= j < |b| && b[j] == a[i];
    MeanHas(b, j);
  }

  /** Sorting and dropping undefined fields changes no meaning. */
  lemma MeanWritten(fields: seq<Field>)
    requires DistinctKeys(fields)
    ensures MeanFields(Written(fields)) == MeanFields(fields)
  {
    WrittenFacts(fields);
    var w := Written(fields);
    forall k | k in MeanFields(fields) ensures k in MeanFields(w) && MeanFields(w)[k] == MeanFields(fields)[k] {
      MeanSubset(fields, w, k);
    }
    forall k | k in MeanFields(w) ensures k in MeanFields(fields) { MeanSubset(w, fields, k); }
  }

  /** Equal maps come from pairwise equal written fields. */
  lemma MeanEqual(a: seq<Field>, b: seq<Field>)
    requires Sorted(a) && Sorted(b) && MeanFields(a) == MeanFields(b)
    requires forall i :: 0 <= i < |a| ==> !a[i].val.JUndefined?
    requires forall i :: 0 <= i < |b| ==> !b[i].val.JUndefined?
    ensures |a| == |b|
    ensures forall i :: 0 <= i < |a| ==> a[i].key == b[i].key && Mean(a[i].val) == Mean(b[i].val)
  {
    SortedDistinct(a);
    SortedDistinct(b);
    forall k: Text ensures HasKey(a, k) ==> HasKey(b, k) {
      if HasKey(a, k) { var i :| 0 <= i < |a| && a[i].key == k; MeanHas(a, i); var j := MeanFrom(b, k); }
    }
    forall k: Text ensures HasKey(b, k) ==> HasKey(a, k) {
      if HasKey(b, k) { var i :| 0 <= i < |b| && b[i].key == k; MeanHas(b, i); var j := MeanFrom(a, k); }
    }
    SortedUnique(a, b);
    forall i | 0 <= i < |a| ensures Mean(a[i].val) == Mean(b[i].val) {
      MeanHas(a, i);
      MeanHas(b, i);
    }
  }

  // ---- when canonicalization succeeds ----

  ghost predicate ItemsClean(items: seq<Json>) {
    forall i :: 0 <= i < |items| ==> Clean(Element(items[i]))
  }

  ghost predicate FieldsClean(fields: seq<Field>) {
    forall i :: 0 <= i < |fields| ==> Clean(fields[i].val)
  }

  /** It throws exactly on what the wire cannot carry. */
  lemma {:induction false} SucceedsIffClean(v: Json)
    ensures Jcs(v).Ok? <==> Clean(v)
    decreases Depth(v), 0
  {
    match v
    case JArr(items) => ItemsSucceed(items);
    case JObj(fields) =>
      FieldsSucceed(Written(fields));
      if Clean(v) {
        forall i | 0 <= i < |Written(fields)| ensures Clean(Written(fields)[i].val) { assert Written(fields)[i] in fields; }
      }
      if FieldsClean(Written(fields)) {
        forall i | 0 <= i < |fields| && !fields[i].val.JUndefined? ensures Clean(fields[i].val) {
          assert fields[i] in Written(fields);
        }
      }
    case _ =>
  }

  lemma {:induction false} ItemsSucceed(items: seq<Json>)
    ensures JcsItems(items).Ok? <==> ItemsClean(items)
    ensures JcsItems(items).Ok? ==> |JcsItems(items).value| == |items|
    decreases ItemsDepth(items), 1 + |items|
  {
    if items != [] {
      SucceedsIffClean(Element(items[0]));
      ItemsSucceed(items[1..]);
      assert ItemsClean(items) <==> Clean(Element(items[0])) && ItemsClean(items[1..]) by {
        assert forall i :: 0 <= i < |items[1..]| ==> items[1..][i] == items[i + 1];
      }
    }
  }

  lemma {:induction false} FieldsSucceed(fields: seq<Field>)
    ensures JcsFields(fields).Ok? <==> FieldsClean(fields)
    ensures JcsFields(fields).Ok? ==> |JcsFields(fields).value| == |fields|
    decreases FieldsDepth(fields), 1 + |fields|
  {
    if fields != [] {
      SucceedsIffClean(fields[0].val);
      FieldsSucceed(fields[1..]);
      assert FieldsClean(fields) <==> Clean(fields[0].val) && FieldsClean(fields[1..]) by {
        assert forall i :: 0 <= i < |fields[1..]| ==> fields[1..][i] == fields[i + 1];
      }
    }
  }

  /** Somewhere in `v` is what this failure is about. */
  ghost predicate Causes(v: Json, e: Failure) {
    match v
    case JUndefined => e.UnsupportedType?
    case JOther => e.UnsupportedType?
    case JNonFinite => e.NonFiniteNumber?
    case JStr(s) => e.LoneSurrogate? && HasLone(s)
    case JArr(items) => exists i :: 0 <= i < |items| && !items[i].JUndefined? && Causes(items[i], e)
    case JObj(fields) => exists i :: 0 <= i < |fields| && !fields[i].val.JUndefined? && Causes(fields[i].val, e)
    case _ => false
  }

  /** The error that is thrown names something that is there. */
  lemma {:induction false} FailureHasCause(v: Json)
    requires Jcs(v).Err?
    ensures Causes(v, Jcs(v).error)
    decreases Depth(v), 0
  {
    match v
    case JArr(items) =>
      var i := FailingItem(items);
      assert Causes(items[i], Jcs(v).error);
    case JObj(fields) =>
      var w := Written(fields);
      var i := FailingField(w);
      assert w[i] in fields;
      var j :| 0 <= j < |fields| && fields[j] == w[i];
    case _ =>
  }

  lemma {:induction false} FailingItem(items: seq<Json>) returns (i: nat)
    requires JcsItems(items).Err?
    ensures i < |items| && !items[i].JUndefined? && Causes(items[i], JcsItems(items).error)
    decreases ItemsDepth(items), 1 + |items|
  {
    if Jcs(Element(items[0])).Err? {
      FailureHasCause(Element(items[0]));
      i := 0;
    } else {
      i := FailingItem(items[1..]);
      i := i + 1;
    }
  }

  lemma {:induction false} FailingField(fields: seq<Field>) returns (i: nat)
    requires JcsFields(fields).Err?
    ensures i < |fields| && Causes(fields[i].val, JcsFields(fields).error)
    decreases FieldsDepth(fields), 1 + |fields|
  {
    if Jcs(fields[0].val).Err? {
      FailureHasCause(fields[0].val);
      i := 0;
    } else {
      i := FailingField(fields[1..]);
      i := i + 1;
    }
  }

  // ---- the shape of a text ----

  /** The first unit of a value's text tells which kind of value it is. */
  lemma Head(v: Json)
    requires Jcs(v).Ok?
    ensures Jcs(v).value != []
    ensures var h := Jcs(v).value[0];
            match v
            case JNull => h == NULL[0]
            case JBool(b) => h == if b then TRUE[0] else FALSE[0]
            case JNum(_) => h == MINUS || Digit(h)
            case JStr(_) => h == QUOTE
            case JArr(_) => h == LBRACKET
            case JObj(_) => h == LBRACE
            case _ => false
  {
    if v.JNum? {
      var r := Integer(v.n);
      assert r[0] == MINUS || r[0] == Natural(v.n)[0];
    }
  }

  lemma ListTail(open: Unit, parts: seq<Text>, close: Unit, x: Text)
    ensures (([open] + (Join(parts) + [close])) + x)[1..] == Join(parts) + ([close] + x)
  {
  }

  /** `p , rest` and `p close`, regrouped around the first part. */
  lemma JoinSplit(parts: seq<Text>, close: Unit, x: Text)
    requires parts != []
    ensures Join(parts) + ([close] + x) ==
            parts[0] + (if |parts| == 1 then [close] + x else [COMMA] + (Join(parts[1..]) + ([close] + x)))
  {
    if |parts| > 1 { Regroup(parts[0], [COMMA], Join(parts[1..]), [close] + x); }
    hide Join;
  }

  lemma Regroup(a: Text, b: Text, c: Text, d: Text)
    ensures (a + (b + c)) + d == a + (b + (c + d))
  {
  }

  lemma ItemsHead(a: seq<Json>)
    requires a != [] && JcsItems(a).Ok?
    ensures Jcs(Element(a[0])).Ok? && JcsItems(a[1..]).Ok?
    ensures JcsItems(a).value == [Jcs(Element(a[0])).value] + JcsItems(a[1..]).value
    ensures |JcsItems(a).value| == |a|
    ensures MeanItems(a) == [Mean(Element(a[0]))] + MeanItems(a[1..])
    ensures ItemsDepth(a[1..]) <= ItemsDepth(a) && Depth(Element(a[0])) <= ItemsDepth(a)
    ensures Valid(a[0]) ==> Valid(Element(a[0]))
  {
    ItemsSucceed(a);
  }

  lemma FirstOfItems(b: seq<Json>, y: Text)
    requires JcsItems(b).Ok?
    ensures (Join(JcsItems(b).value) + ([RBRACKET] + y))[0] == RBRACKET <==> b == []
  {
    if b != [] {
      ItemsHead(b);
      JoinSplit(JcsItems(b).value, RBRACKET, y);
      Head(Element(b[0]));
    }
  }

  lemma WrittenValid(a: seq<Field>)
    requires Valid(JObj(a))
    ensures forall i :: 0 <= i < |Written(a)| ==> Valid(Written(a)[i].val) && !Written(a)[i].val.JUndefined?
    ensures FieldsDepth(Written(a)) <= FieldsDepth(a)
  {
    var w := Written(a);
    forall i | 0 <= i < |w| ensures Valid(w[i].val) && !w[i].val.JUndefined? {
      assert w[i] in Defined(a);
      var j :| 0 <= j < |a| && a[j] == w[i];
    }
  }

  lemma FieldsHead(a: seq<Field>)
    requires a != [] && JcsFields(a).Ok?
    ensures Jcs(a[0].val).Ok? && JcsFields(a[1..]).Ok?
    ensures JcsFields(a).value == [Quote(a[0].key) + ([COLON] + Jcs(a[0].val).value)] + JcsFields(a[1..]).value
    ensures |JcsFields(a).value| == |a|
    ensures !a[0].val.JUndefined? ==> MeanFields(a) == MeanFields(a[1..])[a[0].key := Mean(a[0].val)]
    ensures FieldsDepth(a[1..]) <= FieldsDepth(a)
  {
    FieldsSucceed(a);
  }

  lemma FieldText(k: Text, c: Text, r: Text)
    ensures (Quote(k) + ([COLON] + c)) + r == Quote(k) + ([COLON] + (c + r))
    ensures (Quote(k) + ([COLON] + (c + r)))[0] == QUOTE
  {
  }

  lemma FirstOfFields(b: seq<Field>, y: Text)
    requires JcsFields(b).Ok?
    ensures (Join(JcsFields(b).value) + ([RBRACE] + y))[0] == RBRACE <==> b == []
  {
    if b != [] {
      FieldsHead(b);
      JoinSplit(JcsFields(b).value, RBRACE, y);
    }
  }

  // ---- the meaning determines the text ----

  lemma {:induction false} SameMeaningSameText(v: Json, w: Json)
    requires Valid(v) && Valid(w) && Clean(v) && Clean(w) && Mean(v) == Mean(w)
    ensures Jcs(v) == Jcs(w)
    decreases Depth(v), 0
  {
    match v
    case JArr(items) => ItemsSameText(items, w.items);
    case JObj(fields) => ObjectSameText(fields, w.fields);
    case _ =>
  }

  lemma ObjectSameText(a: seq<Field>, b: seq<Field>)
    requires Valid(JObj(a)) && Valid(JObj(b)) && Clean(JObj(a)) && Clean(JObj(b)) && MeanFields(a) == MeanFields(b)
    ensures JcsFields(Written(a)) == JcsFields(Written(b))
    decreases FieldsDepth(a), 2
  {
    WrittenFacts(a);
    WrittenFacts(b);
    WrittenValid(a);
    WrittenValid(b);
    WrittenClean(a);
    WrittenClean(b);
    MeanWritten(a);
    MeanWritten(b);
    hide Valid, Clean, FieldsClean, Written, MeanFields, JcsFields, Sorted, DistinctKeys, FieldsDepth;
    MeanEqual(Written(a), Written(b));
    FieldsSameText(Written(a), Written(b));
  }

  lemma WrittenClean(a: seq<Field>)
    requires Clean(JObj(a))
    ensures FieldsClean(Written(a))
  {
    var w := Written(a);
    forall i | 0 <= i < |w| ensures Clean(w[i].val) {
      assert w[i] in Defined(a);
      var j :| 0 <= j < |a| && a[j] == w[i];
    }
  }

  lemma {:induction false} MeanLength(items: seq<Json>)
    ensures |MeanItems(items)| == |items|
  {
    if items != [] { MeanLength(items[1..]); }
  }

  lemma {:induction false} ItemsSameText(a: seq<Json>, b: seq<Json>)
    requires forall i :: 0 <= i < |a| ==> Valid(a[i])
    requires forall i :: 0 <= i < |b| ==> Valid(b[i])
    requires ItemsClean(a) && ItemsClean(b) && MeanItems(a) == MeanItems(b)
    ensures JcsItems(a) == JcsItems(b)
    decreases ItemsDepth(a), 1 + |a|
  {
    MeanLength(a);
    MeanLength(b);
    if a != [] {
      assert MeanItems(a)[0] == Mean(a[0]) && MeanItems(b)[0] == Mean(b[0]);
      assert MeanItems(a)[1..] == MeanItems(a[1..]) && MeanItems(b)[1..] == MeanItems(b[1..]);
      SameMeaningSameText(Element(a[0]), Element(b[0]));
      assert ItemsClean(a[1..]) by { assert forall i :: 0 <= i < |a[1..]| ==> a[1..][i] == a[i + 1]; }
      assert ItemsClean(b[1..]) by { assert forall i :: 0 <= i < |b[1..]| ==> b[1..][i] == b[i + 1]; }
      ItemsSameText(a[1..], b[1..]);
    }
  }

  lemma {:induction false} FieldsSameText(a: seq<Field>, b: seq<Field>)
    requires |a| == |b|
    requires forall i :: 0 <= i < |a| ==> a[i].key == b[i].key && Mean(a[i].val) == Mean(b[i].val)
    requires forall i :: 0 <= i < |a| ==> Valid(a[i].val) && Valid(b[i].val)
    requires FieldsClean(a) && FieldsClean(b)
    ensures JcsFields(a) == JcsFields(b)
    decreases FieldsDepth(a), 1, |a|
  {
    if a != [] {
      SameMeaningSameText(a[0].val, b[0].val);
      FieldsSameText(a[1..], b[1..]);
    }
  }

  // ---- the text has a UTF-8 encoding ----

  predicate Plain(t: Text) {
    forall i :: 0 <= i < |t| ==> !High(t[i]) && !Low(t[i])
  }

  lemma PairedConcat(s: Text, t: Text)
    requires !HasLone(s) && !HasLone(t)
    ensures !HasLone(s + t)
  {
    var r := s + t;
    forall i | 0 <= i < |r| ensures !Lone(r, i) {
      if i < |s| {
        assert !Lone(s, i);
      } else {
        assert !Lone(t, i - |s|);
      }
    }
  }

  lemma IntegerPlain(n: int)
    ensures Plain(Integer(n))
  {
    var m := if n < 0 then -n else n;
    assert forall i :: 0 <= i < |Natural(m)| ==> Digit(Natural(m)[i]);
  }

  lemma EscapePlain(u: Unit, lone: bool)
    requires lone || !(High(u) || Low(u))
    ensures Plain(Escape(u, lone)) && !HasLone(Escape(u, lone))
  {
  }

  lemma {:induction false} QuoteFromPaired(s: Text, i: nat)
    requires i <= |s| && (0 < i < |s| ==> !(High(s[i - 1]) && Low(s[i])))
    ensures !HasLone(QuoteFrom(s, i))
    decreases |s| - i
  {
    hide UnicodeEscape;
    if i < |s| {
      if High(s[i]) && !Lone(s, i) {
        QuoteFromPaired(s, i + 2);
        PairedConcat([s[i], s[i + 1]], QuoteFrom(s, i + 2));
        assert QuoteFrom(s, i) == [s[i], s[i + 1]] + QuoteFrom(s, i + 2);
      } else {
        QuoteFromPaired(s, i + 1);
        EscapePlain(s[i], Lone(s, i));
        hide Escape, HasLone;
        PairedConcat(Escape(s[i], Lone(s, i)), QuoteFrom(s, i + 1));
      }
    }
  }

  lemma QuotePaired(s: Text)
    ensures !HasLone(Quote(s))
  {
    QuoteFromPaired(s, 0);
    PairedConcat([QUOTE], QuoteFrom(s, 0));
  }

  ghost predicate AllPaired(parts: seq<Text>) {
    forall i :: 0 <= i < |parts| ==> !HasLone(parts[i])
  }

  lemma {:induction false} JoinPaired(parts: seq<Text>)
    requires AllPaired(parts)
    ensures !HasLone(Join(parts))
  {
    if |parts| > 1 {
      JoinPaired(parts[1..]);
      PairedConcat([COMMA], Join(parts[1..]));
      PairedConcat(parts[0], [COMMA] + Join(parts[1..]));
    }
  }

  lemma ListPaired(open: Unit, parts: seq<Text>, close: Unit)
    requires AllPaired(parts) && Plain([open]) && Plain([close])
    ensures !HasLone([open] + (Join(parts) + [close]))
  {
    JoinPaired(parts);
    PairedConcat(Join(parts), [close]);
    PairedConcat([open], Join(parts) + [close]);
  }

  /** A canonical text holds no lone surrogate, so hashing its UTF-8 form loses
      nothing: lone surrogates in string values are refused, those in keys escaped. */
  lemma {:induction false} CanonicalIsEncodable(v: Json)
    requires Jcs(v).Ok?
    ensures !HasLone(Jcs(v).value)
    decreases Depth(v), 0
  {
    match v
    case JNum(n) => IntegerPlain(n);
    case JStr(s) => QuotePaired(s);
    case JArr(items) =>
      ItemsEncodable(items);
      ListPaired(LBRACKET, JcsItems(items).value, RBRACKET);
    case JObj(fields) =>
      FieldsEncodable(Written(fields));
      ListPaired(LBRACE, JcsFields(Written(fields)).value, RBRACE);
    case _ =>
  }

  lemma {:induction false} ItemsEncodable(items: seq<Json>)
    requires JcsItems(items).Ok?
    ensures AllPaired(JcsItems(items).value)
    decreases ItemsDepth(items), 1 + |items|
  {
    if items != [] {
      ItemsHead(items);
      CanonicalIsEncodable(Element(items[0]));
      ItemsEncodable(items[1..]);
    }
  }

  lemma {:induction false} FieldsEncodable(fields: seq<Field>)
    requires JcsFields(fields).Ok?
    ensures AllPaired(JcsFields(fields).value)
    decreases FieldsDepth(fields), 1, |fields|
  {
    if fields != [] {
      FieldsHead(fields);
      CanonicalIsEncodable(fields[0].val);
      FieldsEncodable(fields[1..]);
      var c := Jcs(fields[0].val).value;
      QuotePaired(fields[0].key);
      PairedConcat([COLON], c);
      PairedConcat(Quote(fields[0].key), [COLON] + c);
    }
  }
}
