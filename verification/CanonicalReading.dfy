/** A reader of JSON texts (sections 2 to 7 of RFC 8259, without fractions and exponents),
    written from the grammar and not from the writer, and the proof that it reads every
    canonical text back as the value it was written for. */
module CanonicalReading {
  import opened Options
  import opened CanonicalText
  import opened CanonicalJson
  import opened CanonicalTheorems

  /** What was read, and the text that follows it. */
  datatype Read<+T> = Read(what: T, rest: Text)

  // ---- strings ----

  function HexValue(u: Unit): Option<nat> {
    if 0x30 <= u <= 0x39 then Some(u - 0x30)
    else if 0x61 <= u <= 0x66 then Some(u - 0x61 + 10)
    else if 0x41 <= u <= 0x46 then Some(u - 0x41 + 10)
    else None
  }

  /** Hexadecimal digits, most significant first. */
  function HexNumber(t: Text): Option<nat> {
    if t == [] then Some(0)
    else
      var init, last := HexNumber(t[..|t| - 1]), HexValue(t[|t| - 1]);
      if init.None? || last.None? then None else Some(16 * init.value + last.value)
  }

  /** What may follow a backslash. */
  function ReadEscape(t: Text): (r: Option<Read<Unit>>)
    ensures r.Some? ==> |r.value.rest| < |t|
  {
    if t == [] then None
    else match t[0]
      case 0x22 => Some(Read(0x22, t[1..]))
      case 0x5C => Some(Read(0x5C, t[1..]))
      case 0x2F => Some(Read(0x2F, t[1..]))
      case 0x62 => Some(Read(0x08, t[1..]))
      case 0x66 => Some(Read(0x0C, t[1..]))
      case 0x6E => Some(Read(0x0A, t[1..]))
      case 0x72 => Some(Read(0x0D, t[1..]))
      case 0x74 => Some(Read(0x09, t[1..]))
      case 0x75 =>
        if |t| < 5 then None
        else
          var n := HexNumber(t[1..5]);
          if n.None? || n.value >= 0x1_0000 then None else Some(Read(n.value, t[5..]))
      case _ => None
  }

  /** The units of a string, up to and with its closing quote. */
  function ReadUnits(t: Text): (r: Option<Read<Text>>)
    ensures r.Some? ==> |r.value.rest| < |t|
    decreases |t|
  {
    if t == [] || t[0] < 0x20 then None
    else if t[0] == QUOTE then Some(Read([], t[1..]))
    else
      var first := if t[0] == BACKSLASH then ReadEscape(t[1..]) else Some(Read(t[0], t[1..]));
      if first.None? then None
      else
        var more := ReadUnits(first.value.rest);
        if more.None? then None else Some(Read([first.value.what] + more.value.what, more.value.rest))
  }

  // ---- numbers ----

  /** The digits at the start of a text. */
  function Digits(t: Text): (r: Text)
    ensures |r| <= |t| && t[..|r|] == r
  {
    if t == [] || !Digit(t[0]) then [] else [t[0]] + Digits(t[1..])
  }

  function DecimalValue(t: Text): int {
    if t == [] then 0 else 10 * DecimalValue(t[..|t| - 1]) + (t[|t| - 1] as int - 0x30)
  }

  /** No digits, or a needless leading zero, is no number. */
  function ReadNumber(t: Text): (r: Option<Read<int>>)
    ensures r.Some? ==> |r.value.rest| < |t|
  {
    var negative := t != [] && t[0] == MINUS;
    var u := if negative then t[1..] else t;
    var d := Digits(u);
    if d == [] || (d[0] == 0x30 && |d| > 1) then None
    else Some(Read(if negative then -DecimalValue(d) else DecimalValue(d), u[|d|..]))
  }

  // ---- values ----

  predicate StartsWith(t: Text, word: Text) {
    |word| <= |t| && t[..|word|] == word
  }

  function ReadValue(t: Text): (r: Option<Read<Value>>)
    ensures r.Some? ==> |r.value.rest| < |t|
    decreases |t|, 0
  {
    if t == [] then None
    else if t[0] == QUOTE then
      var s := ReadUnits(t[1..]);
      if s.None? then None else Some(Read(VStr(s.value.what), s.value.rest))
    else if t[0] == LBRACKET then
      if |t| > 1 && t[1] == RBRACKET then Some(Read(VArr([]), t[2..]))
      else
        var items := ReadItems(t[1..]);
        if items.None? then None else Some(Read(VArr(items.value.what), items.value.rest))
    else if t[0] == LBRACE then
      if |t| > 1 && t[1] == RBRACE then Some(Read(VObj(map[]), t[2..]))
      else
        var members := ReadMembers(t[1..]);
        if members.None? then None else Some(Read(VObj(members.value.what), members.value.rest))
    else if StartsWith(t, NULL) then Some(Read(VNull, t[4..]))
    else if StartsWith(t, TRUE) then Some(Read(VBool(true), t[4..]))
    else if StartsWith(t, FALSE) then Some(Read(VBool(false), t[5..]))
    else
      var n := ReadNumber(t);
      if n.None? then None else Some(Read(VNum(n.value.what), n.value.rest))
  }

  function ReadItems(t: Text): (r: Option<Read<seq<Value>>>)
    ensures r.Some? ==> |r.value.rest| < |t|
    decreases |t|, 1
  {
    var first := ReadValue(t);
    if first.None? || first.value.rest == [] then None
    else
      var v, rest := first.value.what, first.value.rest;
      if rest[0] == RBRACKET then Some(Read([v], rest[1..]))
      else if rest[0] != COMMA then None
      else
        var more := ReadItems(rest[1..]);
        if more.None? then None else Some(Read([v] + more.value.what, more.value.rest))
  }

  /** Of two members with one name the later counts. */
  function ReadMembers(t: Text): (r: Option<Read<map<Text, Value>>>)
    ensures r.Some? ==> |r.value.rest| < |t|
    decreases |t|, 1
  {
    if t == [] || t[0] != QUOTE then None
    else
      var name := ReadUnits(t[1..]);
      if name.None? || name.value.rest == [] || name.value.rest[0] != COLON then None
      else
        var k, first := name.value.what, ReadValue(name.value.rest[1..]);
        if first.None? || first.value.rest == [] then None
        else
          var v, rest := first.value.what, first.value.rest;
          if rest[0] == RBRACE then Some(Read(map[k := v], rest[1..]))
          else if rest[0] != COMMA then None
          else
            var more := ReadMembers(rest[1..]);
            if more.None? then None else Some(Read(map[k := v] + more.value.what, more.value.rest))
  }

  /** A whole text: one value and nothing after it. */
  function Parse(t: Text): Option<Value> {
    var r := ReadValue(t);
    if r.None? || r.value.rest != [] then None else Some(r.value.what)
  }

  // ---- strings are read back ----

  lemma HexRoundTrip(n: int)
    requires 0 <= n < 16
    ensures HexValue(HexDigit(n)) == Some(n)
  {
  }

  lemma HexSnoc(t: Text, n: int)
    requires 0 <= n < 16 && HexNumber(t).Some?
    ensures HexNumber(t + [HexDigit(n)]) == Some(16 * HexNumber(t).value + n)
  {
    HexRoundTrip(n);
    assert (t + [HexDigit(n)])[..|t|] == t;
  }

  lemma FourHexDigits(a: int, b: int, c: int, d: int)
    requires 0 <= a < 16 && 0 <= b < 16 && 0 <= c < 16 && 0 <= d < 16
    ensures HexNumber([HexDigit(a), HexDigit(b), HexDigit(c), HexDigit(d)]) == Some(((a * 16 + b) * 16 + c) * 16 + d)
  {
    var p, q, r, s := HexDigit(a), HexDigit(b), HexDigit(c), HexDigit(d);
    HexSnoc([], a);
    assert [] + [p] == [p];
    HexSnoc([p], b);
    assert [p] + [q] == [p, q];
    HexSnoc([p, q], c);
    assert [p, q] + [r] == [p, q, r];
    HexSnoc([p, q, r], d);
    assert [p, q, r] + [s] == [p, q, r, s];
  }

  lemma UnicodeEscapeReads(u: Unit, x: Text)
    ensures (UnicodeEscape(u) + x)[0] == BACKSLASH && ReadEscape((UnicodeEscape(u) + x)[1..]) == Some(Read(u, x))
  {
    var a := u / 16;
    var b := a / 16;
    FourHexDigits(b / 16, b % 16, a % 16, u % 16);
    var d := [HexDigit(b / 16), HexDigit(b % 16), HexDigit(a % 16), HexDigit(u % 16)];
    hide HexDigit, HexNumber;
    var t := (UnicodeEscape(u) + x)[1..];
    assert UnicodeEscape(u) == [BACKSLASH, 0x75] + d;
    assert t == [0x75] + (d + x);
    assert t[1..5] == d && t[5..] == x;
  }

  lemma ShortEscapeReads(u: Unit, lone: bool, x: Text)
    requires |Escape(u, lone)| == 2
    ensures ReadEscape((Escape(u, lone) + x)[1..]) == Some(Read(u, x))
  {
    var e := Escape(u, lone);
    var t := (e + x)[1..];
    assert t[0] == e[1] && t[1..] == x;
  }

  lemma BackslashReads(t: Text, u: Unit, x: Text)
    requires t != [] && t[0] == BACKSLASH && ReadEscape(t[1..]) == Some(Read(u, x)) && ReadUnits(x).Some?
    ensures ReadUnits(t) == Some(Read([u] + ReadUnits(x).value.what, ReadUnits(x).value.rest))
  {
  }

  lemma EscapeKinds(u: Unit, lone: bool)
    ensures var e := Escape(u, lone);
            || (|e| == 2 && e[0] == BACKSLASH)
            || (e == [u] && u >= 0x20 && u != QUOTE && u != BACKSLASH)
            || (|e| == 6 && e == UnicodeEscape(u))
  {
  }

  lemma PlainReads(u: Unit, x: Text)
    requires u >= 0x20 && u != QUOTE && u != BACKSLASH && ReadUnits(x).Some?
    ensures ReadUnits([u] + x) == Some(Read([u] + ReadUnits(x).value.what, ReadUnits(x).value.rest))
  {
    assert ([u] + x)[1..] == x;
  }

  /** One escaped unit. */
  lemma EscapeReads(u: Unit, lone: bool, x: Text)
    requires ReadUnits(x).Some?
    ensures ReadUnits(Escape(u, lone) + x) == Some(Read([u] + ReadUnits(x).value.what, ReadUnits(x).value.rest))
  {
    EscapeKinds(u, lone);
    hide ReadEscape, UnicodeEscape, Escape, ReadUnits;
    var e := Escape(u, lone);
    var t := e + x;
    if |e| == 2 {
      ShortEscapeReads(u, lone, x);
      BackslashReads(t, u, x);
    } else if e == [u] {
      PlainReads(u, x);
    } else {
      UnicodeEscapeReads(u, x);
      BackslashReads(t, u, x);
    }
  }

  /** Section 3.2.2.2 of RFC 8785: only quotes, backslashes, control characters and lone
      surrogates are escaped; where the grammar knows a two-unit escape that is the one
      used; and hexadecimal digits are in lower case. */
  lemma EscapeIsShortest(u: Unit, lone: bool)
    requires lone ==> High(u) || Low(u)
    ensures Escape(u, lone) == [u] <==> u >= 0x20 && u != QUOTE && u != BACKSLASH && !lone
    ensures forall c: Unit :: Escape(u, lone) != [u] && ReadEscape([c]) == Some(Read(u, [])) ==>
              Escape(u, lone) == [BACKSLASH, c]
    ensures forall i :: 0 <= i < |Escape(u, lone)| && Escape(u, lone) != [u] ==> !(0x41 <= Escape(u, lone)[i] <= 0x46)
  {
  }

  lemma {:induction false} QuoteFromReads(s: Text, i: nat, x: Text)
    requires i <= |s|
    ensures ReadUnits(QuoteFrom(s, i) + x) == Some(Read(s[i..], x))
    decreases |s| - i
  {
    if i == |s| {
      assert ([QUOTE] + x)[1..] == x;
    } else {
      var e, rest := Escape(s[i], Lone(s, i)), QuoteFrom(s, i + 1);
      QuoteFromReads(s, i + 1, x);
      assert (e + rest) + x == e + (rest + x);
      EscapeReads(s[i], Lone(s, i), rest + x);
      assert s[i..] == [s[i]] + s[i + 1..];
    }
  }

  /** A quoted string reads back as the string, lone surrogates included, and ends where
      it says, whatever follows. */
  lemma QuoteReads(s: Text, x: Text)
    ensures (Quote(s) + x)[0] == QUOTE && ReadUnits((Quote(s) + x)[1..]) == Some(Read(s, x))
  {
    assert (Quote(s) + x)[1..] == QuoteFrom(s, 0) + x;
    QuoteFromReads(s, 0, x);
    assert s[0..] == s;
  }

  // ---- integers are read back ----

  lemma {:induction false} NaturalReads(n: nat)
    ensures DecimalValue(Natural(n)) == n && (Natural(n)[0] == 0x30 ==> n == 0)
  {
    if n >= 10 {
      NaturalReads(n / 10);
      var t := Natural(n);
      assert t[..|t| - 1] == Natural(n / 10);
    }
  }

  lemma {:induction false} DigitsStop(s: Text, x: Text)
    requires (forall i :: 0 <= i < |s| ==> Digit(s[i])) && (x == [] || !Digit(x[0]))
    ensures Digits(s + x) == s
  {
    if s == [] {
      assert s + x == x;
    } else {
      assert (s + x)[1..] == s[1..] + x;
      DigitsStop(s[1..], x);
    }
  }

  lemma DigitsRead(n: nat, x: Text)
    requires Ends(x)
    ensures var s := Natural(n);
            && Digits(s + x) == s && DecimalValue(s) == n && (s + x)[|s|..] == x
            && !(s[0] == 0x30 && |s| > 1) && (s + x)[0] == s[0]
  {
    NaturalReads(n);
    DigitsStop(Natural(n), x);
  }

  /** An integer before a separator reads back as itself. */
  lemma IntegerReads(n: int, x: Text)
    requires Ends(x)
    ensures ReadNumber(Integer(n) + x) == Some(Read(n, x))
  {
    hide Natural, Digits, DecimalValue;
    DigitsRead(if n < 0 then -n else n, x);
    if n < 0 { HeadTail(MINUS, Natural(-n), x); }
  }

  // ---- values are read back ----

  lemma WordReads(word: Text, x: Text)
    requires word == NULL || word == TRUE || word == FALSE
    ensures ReadValue(word + x) ==
            Some(Read(if word == NULL then VNull else VBool(word == TRUE), x))
  {
    var t := word + x;
    assert t[0] == word[0] && t[..|word|] == word && t[|word|..] == x;
    hide ReadUnits, ReadItems, ReadMembers, ReadNumber;
    if word == TRUE { assert t[..4] != NULL; }
    if word == FALSE { assert t[..4][0] != NULL[0] && t[..4][0] != TRUE[0]; }
  }

  lemma StartsSame(t: Text, word: Text)
    requires word != []
    ensures StartsWith(t, word) ==> t != [] && t[0] == word[0]
  {
    assert StartsWith(t, word) ==> t[..|word|][0] == t[0];
  }

  lemma NumberReads(n: int, x: Text)
    requires Ends(x)
    ensures ReadValue(Integer(n) + x) == Some(Read(VNum(n), x))
  {
    IntegerReads(n, x);
    var t := Integer(n) + x;
    assert t[0] == Integer(n)[0];
    assert t[0] == MINUS || Digit(t[0]) by { hide ReadValue; }
    StartsSame(t, NULL);
    StartsSame(t, TRUE);
    StartsSame(t, FALSE);
    hide ReadUnits, ReadItems, ReadMembers, ReadNumber, Integer, Natural, StartsWith;
  }

  /** The canonical text of a value reads back as its meaning, before any separator. */
  lemma {:induction false} ValueReads(v: Json, x: Text)
    requires Valid(v) && Jcs(v).Ok? && Ends(x)
    ensures ReadValue(Jcs(v).value + x) == Some(Read(Mean(v), x))
    decreases Depth(v), 0
  {
    match v
    case JNum(n) => NumberReads(n, x);
    case JStr(s) => QuoteReads(s, x); hide Quote;
    case JArr(items) => ArrayReads(items, x);
    case JObj(fields) => ObjectReads(fields, x);
    case JNull => WordReads(NULL, x);
    case JBool(b) => WordReads(if b then TRUE else FALSE, x);
    case _ =>
  }

  lemma ArrayReads(items: seq<Json>, x: Text)
    requires Valid(JArr(items)) && JcsItems(items).Ok?
    ensures ReadValue(([LBRACKET] + (Join(JcsItems(items).value) + [RBRACKET])) + x) == Some(Read(VArr(MeanItems(items)), x))
    decreases ItemsDepth(items), 2 + |items|
  {
    var p := JcsItems(items).value;
    var t := ([LBRACKET] + (Join(p) + [RBRACKET])) + x;
    ListTail(LBRACKET, p, RBRACKET, x);
    FirstOfItems(items, x);
    assert |t| > 1 && t[1] == t[1..][0];
    if items == [] {
      assert t[1..][1..] == x;
    } else {
      ItemsRead(items, x);
    }
  }

  lemma {:induction false} ItemsRead(a: seq<Json>, x: Text)
    requires a != [] && JcsItems(a).Ok? && forall i :: 0 <= i < |a| ==> Valid(a[i])
    ensures ReadItems(Join(JcsItems(a).value) + ([RBRACKET] + x)) == Some(Read(MeanItems(a), x))
    decreases ItemsDepth(a), 1 + |a|
  {
    var p := JcsItems(a).value;
    ItemsHead(a);
    hide Jcs, JcsItems, Join, MeanItems, Mean, ItemsDepth, Depth, Valid, Element, ReadValue;
    JoinSplit(p, RBRACKET, x);
    var r := if |p| == 1 then [RBRACKET] + x else [COMMA] + (Join(p[1..]) + ([RBRACKET] + x));
    ValueReads(Element(a[0]), r);
    if |p| == 1 {
      assert r[1..] == x && a[1..] == [];
      assert MeanItems(a) == [Mean(Element(a[0]))] by { NoItems(); }
    } else {
      assert r[1..] == Join(p[1..]) + ([RBRACKET] + x) && p[1..] == JcsItems(a[1..]).value;
      ItemsRead(a[1..], x);
    }
  }

  lemma NoItems()
    ensures MeanItems([]) == [] && MeanFields([]) == map[]
  {
  }

  lemma ObjectReads(fields: seq<Field>, x: Text)
    requires Valid(JObj(fields)) && JcsFields(Written(fields)).Ok?
    ensures var p := JcsFields(Written(fields)).value;
            ReadValue(([LBRACE] + (Join(p) + [RBRACE])) + x) == Some(Read(VObj(MeanFields(fields)), x))
    decreases FieldsDepth(fields), 2
  {
    hide FieldsDepth, Defined, ReadMembers;
    var w := Written(fields);
    var p := JcsFields(w).value;
    var t := ([LBRACE] + (Join(p) + [RBRACE])) + x;
    WrittenValid(fields);
    WrittenFacts(fields);
    MeanWritten(fields);
    ListTail(LBRACE, p, RBRACE, x);
    FirstOfFields(w, x);
    assert |t| > 1 && t[1] == t[1..][0];
    if w == [] {
      NoItems();
      assert t[1..][1..] == x;
    } else {
      FieldsRead(w, x);
    }
  }

  lemma {:induction false} FieldsRead(a: seq<Field>, x: Text)
    requires a != [] && JcsFields(a).Ok? && DistinctKeys(a)
    requires forall i :: 0 <= i < |a| ==> Valid(a[i].val) && !a[i].val.JUndefined?
    ensures ReadMembers(Join(JcsFields(a).value) + ([RBRACE] + x)) == Some(Read(MeanFields(a), x))
    decreases FieldsDepth(a), 1, |a|
  {
    hide Jcs, JcsFields, Join, Quote, MeanFields, Mean, FieldsDepth, Depth, Valid, ReadValue, ReadUnits;
    var p, k := JcsFields(a).value, a[0].key;
    FieldsHead(a);
    OneName(a);
    JoinSplit(p, RBRACE, x);
    var r := if |p| == 1 then [RBRACE] + x else [COMMA] + (Join(p[1..]) + ([RBRACE] + x));
    var c := Jcs(a[0].val).value;
    FieldText(k, c, r);
    QuoteReads(k, [COLON] + (c + r));
    assert ([COLON] + (c + r))[1..] == c + r;
    ValueReads(a[0].val, r);
    if |p| == 1 {
      NoItems();
      assert r[1..] == x && a[1..] == [];
    } else {
      assert r[1..] == Join(p[1..]) + ([RBRACE] + x) && p[1..] == JcsFields(a[1..]).value;
      FieldsRead(a[1..], x);
    }
  }

  lemma OneName(a: seq<Field>)
    requires a != [] && DistinctKeys(a) && !a[0].val.JUndefined?
    ensures MeanFields(a) == map[a[0].key := Mean(a[0].val)] + MeanFields(a[1..])
  {
    if a[0].key in MeanFields(a[1..]) { var i := MeanFrom(a[1..], a[0].key); }
  }
}
