/** The JSON inside a page cursor: read by a JSON reader, it gives back the position and
    the signature that were written, so the reading that the paging theorems ask for
    exists. */
module HistoryCursors {
  import opened Options
  import opened CanonicalText
  import opened CanonicalJson
  import opened CanonicalTheorems
  import opened CanonicalDigests
  import R = CanonicalReading
  import opened Base64Url
  import P = HistoryPaging

  const B: Text := [0x62]
  const SIG: Text := [0x73, 0x69, 0x67]

  /** Bytes of ASCII characters as code units. */
  function Units(b: Bytes): (t: Text)
    ensures |t| == |b| && forall i :: 0 <= i < |b| ==> t[i] == b[i]
  {
    if b == [] then [] else Units(b[..|b| - 1]) + [b[|b| - 1]]
  }

  function IntegerField(v: Value, k: Text): Option<int> {
    if v.VObj? && k in v.members && v.members[k].VNum? then Some(v.members[k].n) else None
  }

  /** `JSON.parse` of the decoded cursor, and the two integers it is asked for. */
  function ParseCursor(b: Bytes): Option<P.CursorFields> {
    var v := R.Parse(Units(b));
    if v.None? || !v.value.VObj? then None
    else Some(P.CursorFields(IntegerField(v.value, B), IntegerField(v.value, SIG)))
  }

  function Ascii(s: string): (t: Text)
    ensures |t| == |s| && forall i :: 0 <= i < |s| ==> t[i] == s[i] as int % 256
  {
    Units(P.AsciiBytes(s))
  }

  lemma AsciiConcat(s: string, t: string)
    ensures Ascii(s + t) == Ascii(s) + Ascii(t)
  {
    hide Ascii;
  }

  lemma AsciiPieces(h: string, d: string, m: string, e: string, c: string)
    ensures Ascii(h + d + m + e + c) == Ascii(h) + Ascii(d) + Ascii(m) + Ascii(e) + Ascii(c)
  {
    AsciiConcat(h, d);
    AsciiConcat(h + d, m);
    AsciiConcat(h + d + m, e);
    AsciiConcat(h + d + m + e, c);
    hide Ascii;
  }

  lemma {:induction false} DecimalIsNatural(n: nat)
    ensures Ascii(P.Decimal(n)) == Natural(n)
  {
    hide Ascii;
    var digit := ['0' + (n % 10) as char];
    assert Ascii(digit) == [0x30 + n % 10];
    if n >= 10 {
      DecimalIsNatural(n / 10);
      AsciiConcat(P.Decimal(n / 10), digit);
    }
  }

  function CursorObject(b: nat, sig: nat): Json {
    JObj([Field(B, JNum(b)), Field(SIG, JNum(sig))])
  }

  lemma Literals()
    ensures Ascii("{\"b\":") == [0x7B, 0x22, 0x62, 0x22, 0x3A]
    ensures Ascii(",\"sig\":") == [0x2C, 0x22, 0x73, 0x69, 0x67, 0x22, 0x3A]
    ensures Ascii("}") == [0x7D]
  {
    hide Ascii;
  }

  lemma CursorParts(b: nat, sig: nat)
    ensures Ascii(P.CursorText(b, sig)) ==
            [0x7B, 0x22, 0x62, 0x22, 0x3A] + Natural(b) + [0x2C, 0x22, 0x73, 0x69, 0x67, 0x22, 0x3A] + Natural(sig) + [0x7D]
  {
    DecimalIsNatural(b);
    DecimalIsNatural(sig);
    Literals();
    AsciiPieces("{\"b\":", P.Decimal(b), ",\"sig\":", P.Decimal(sig), "}");
    hide Ascii, Natural, P.Decimal;
  }

  lemma TwoFields(f: Field, g: Field)
    requires Less(f.key, g.key) && !f.val.JUndefined? && !g.val.JUndefined?
    ensures SortFields(Defined([f, g])) == [f, g]
  {
    LessTrichotomy(f.key, g.key);
    hide Less;
    assert [f, g][1..] == [g];
    assert Defined([g]) == [g] && Defined([f, g]) == [f, g];
    assert SortFields([g]) == [g];
  }

  lemma WrittenPair(k: Text, m: nat, l: Text, n: nat)
    ensures JcsFields([Field(k, JNum(m)), Field(l, JNum(n))]) ==
            Ok([Quote(k) + ([COLON] + Natural(m)), Quote(l) + ([COLON] + Natural(n))])
  {
    var f, g := Field(k, JNum(m)), Field(l, JNum(n));
    hide Natural, Quote;
    assert [f, g][1..] == [g] && [g][1..] == [];
    assert Jcs(f.val) == Ok(Natural(m)) && Jcs(g.val) == Ok(Natural(n)) && JcsFields([]) == Ok([]);
    assert JcsFields([g]).Ok? && JcsFields([g]).value == [Quote(l) + ([COLON] + Natural(n))];
    assert JcsFields([f, g]).value == [Quote(k) + ([COLON] + Natural(m)), Quote(l) + ([COLON] + Natural(n))];
  }

  lemma PairText(f: Field, g: Field, p: Text, q: Text)
    requires SortFields(Defined([f, g])) == [f, g] && JcsFields([f, g]) == Ok([p, q])
    ensures Jcs(JObj([f, g])) == Ok([LBRACE] + ((p + ([COMMA] + q)) + [RBRACE]))
  {
    assert Join([p, q]) == p + ([COMMA] + q) by { assert [p, q][1..] == [q]; }
  }

  lemma Regroup(k: Text, m: Text, l: Text, n: Text)
    ensures [LBRACE] + (((k + ([COLON] + m)) + ([COMMA] + (l + ([COLON] + n)))) + [RBRACE]) ==
            ([LBRACE] + k + [COLON]) + m + ([COMMA] + l + [COLON]) + n + [RBRACE]
  {
  }

  lemma CursorRegrouped(m: Text, n: Text)
    ensures [LBRACE] + (((Quote(B) + ([COLON] + m)) + ([COMMA] + (Quote(SIG) + ([COLON] + n)))) + [RBRACE]) ==
            [0x7B, 0x22, 0x62, 0x22, 0x3A] + m + [0x2C, 0x22, 0x73, 0x69, 0x67, 0x22, 0x3A] + n + [0x7D]
  {
    QuotedNames();
    hide Quote;
    Regroup(Quote(B), m, Quote(SIG), n);
    assert [LBRACE] + Quote(B) + [COLON] == [0x7B, 0x22, 0x62, 0x22, 0x3A];
    assert [COMMA] + Quote(SIG) + [COLON] == [0x2C, 0x22, 0x73, 0x69, 0x67, 0x22, 0x3A];
  }

  /** The text of a cursor is the canonical text of its object. */
  lemma CursorIsCanonical(b: nat, sig: nat)
    ensures Jcs(CursorObject(b, sig)).Ok? && Jcs(CursorObject(b, sig)).value == Ascii(P.CursorText(b, sig))
  {
    var f, g := Field(B, JNum(b)), Field(SIG, JNum(sig));
    CursorParts(b, sig);
    TwoFields(f, g);
    WrittenPair(B, b, SIG, sig);
    hide Natural, SortFields, Defined, JcsFields, Ascii, P.CursorText, Quote, Jcs;
    PairText(f, g, Quote(B) + ([COLON] + Natural(b)), Quote(SIG) + ([COLON] + Natural(sig)));
    CursorRegrouped(Natural(b), Natural(sig));
  }

  lemma QuotedNames()
    ensures Quote(B) == [0x22, 0x62, 0x22] && Quote(SIG) == [0x22, 0x73, 0x69, 0x67, 0x22]
  {
    assert QuoteFrom(SIG, 2) == [0x67] + [0x22];
  }

  /** What a JSON reader makes of the bytes of a cursor. */
  lemma CursorParses(b: nat, sig: nat)
    ensures R.Parse(Ascii(P.CursorText(b, sig))) == Some(VObj(map[B := VNum(b), SIG := VNum(sig)]))
  {
    CursorIsCanonical(b, sig);
    CursorMeans(b, sig);
    hide R.Parse, P.CursorText, Ascii, Jcs, Mean;
    CanonicalParsesBack(CursorObject(b, sig));
  }

  /** With this reading, every cursor is read back. */
  lemma CursorsReadBack<T>(p: P.Pager<T>)
    requires forall bytes: Bytes :: p.parse(bytes) == ParseCursor(bytes)
    ensures P.ReadsCursors(p)
  {
    forall b: nat, sig: nat
      ensures p.parse(P.AsciiBytes(P.CursorText(b, sig))) == Some(P.CursorFields(Some(b), Some(sig)))
    {
      CursorParses(b, sig);
      hide R.Parse, P.CursorText, P.AsciiBytes, Units;
    }
  }

  lemma CursorMeans(b: nat, sig: nat)
    ensures Mean(CursorObject(b, sig)) == VObj(map[B := VNum(b), SIG := VNum(sig)])
  {
    var f, g := Field(B, JNum(b)), Field(SIG, JNum(sig));
    assert [f, g][1..] == [g] && [g][1..] == [];
    assert MeanFields([g]) == map[SIG := VNum(sig)];
    assert Mean(f.val) == VNum(b);
    assert MeanFields([f, g]) == map[SIG := VNum(sig)][B := VNum(b)];
  }
}
