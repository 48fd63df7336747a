/** The leaves of canonical JSON (section 3.2.2 of RFC 8785) over UTF-16 code units:
    string escaping, integer notation and the order of keys. */
module CanonicalText {
  type Unit = u: int | 0 <= u < 0x1_0000
  type Text = seq<Unit>

  const QUOTE: Unit := 0x22
  const BACKSLASH: Unit := 0x5C
  const MINUS: Unit := 0x2D
  const COMMA: Unit := 0x2C
  const COLON: Unit := 0x3A
  const LBRACKET: Unit := 0x5B
  const RBRACKET: Unit := 0x5D
  const LBRACE: Unit := 0x7B
  const RBRACE: Unit := 0x7D
  const NULL: Text := [0x6E, 0x75, 0x6C, 0x6C]
  const TRUE: Text := [0x74, 0x72, 0x75, 0x65]
  const FALSE: Text := [0x66, 0x61, 0x6C, 0x73, 0x65]

  predicate High(u: Unit) { 0xD800 <= u <= 0xDBFF }
  predicate Low(u: Unit) { 0xDC00 <= u <= 0xDFFF }

  /** Unit `i` is a surrogate without its partner. */
  predicate Lone(s: Text, i: nat)
    requires i < |s|
  {
    || (High(s[i]) && !(i + 1 < |s| && Low(s[i + 1])))
    || (Low(s[i]) && !(0 < i && High(s[i - 1])))
  }

  predicate HasLone(s: Text) {
    exists i :: 0 <= i < |s| && Lone(s, i)
  }

  // ---- strings ----

  function HexDigit(n: int): Unit
    requires 0 <= n < 16
  {
    if n < 10 then 0x30 + n else 0x61 + n - 10
  }

  /** `\u` and four lower-case hexadecimal digits. */
  function UnicodeEscape(u: Unit): Text {
    var a := u / 16;
    var b := a / 16;
    [BACKSLASH, 0x75, HexDigit(b / 16), HexDigit(b % 16), HexDigit(a % 16), HexDigit(u % 16)]
  }

  function Escape(u: Unit, lone: bool): Text {
    if u == QUOTE || u == BACKSLASH then [BACKSLASH, u]
    else if u == 0x08 then [BACKSLASH, 0x62]
    else if u == 0x0C then [BACKSLASH, 0x66]
    else if u == 0x0A then [BACKSLASH, 0x6E]
    else if u == 0x0D then [BACKSLASH, 0x72]
    else if u == 0x09 then [BACKSLASH, 0x74]
    else if u < 0x20 || lone then UnicodeEscape(u)
    else [u]
  }

  /** What `JSON.stringify` writes for units `i..` of a string, closing quote included. */
  function QuoteFrom(s: Text, i: nat): Text
    requires i <= |s|
    decreases |s| - i
  {
    if i == |s| then [QUOTE] else Escape(s[i], Lone(s, i)) + QuoteFrom(s, i + 1)
  }

  function Quote(s: Text): Text {
    [QUOTE] + QuoteFrom(s, 0)
  }

  // ---- integers ----

  predicate Digit(u: Unit) { 0x30 <= u <= 0x39 }

  function Natural(n: nat): (r: Text)
    ensures |r| > 0 && forall i :: 0 <= i < |r| ==> Digit(r[i])
  {
    if n < 10 then [0x30 + n] else Natural(n / 10) + [0x30 + n % 10]
  }

  function Integer(n: int): Text {
    if n < 0 then [MINUS] + Natural(-n) else Natural(n)
  }

  /** What may follow a value: the end, or a separator. */
  predicate Ends(r: Text) {
    r == [] || r[0] == COMMA || r[0] == RBRACKET || r[0] == RBRACE
  }

  lemma HeadTail(u: Unit, s: Text, x: Text)
    ensures (([u] + s) + x)[0] == u && (([u] + s) + x)[1..] == s + x
  {
  }

  // ---- key order ----

  /** Lexicographic order of UTF-16 code units, the default string order of JavaScript. */
  predicate Less(a: Text, b: Text) {
    b != [] && (a == [] || a[0] < b[0] || (a[0] == b[0] && Less(a[1..], b[1..])))
  }

  lemma {:induction false} LessTrichotomy(a: Text, b: Text)
    ensures Less(a, b) || a == b || Less(b, a)
    ensures Less(a, b) ==> a != b && !Less(b, a)
  {
    if a != [] && b != [] {
      LessTrichotomy(a[1..], b[1..]);
      assert a == [a[0]] + a[1..] && b == [b[0]] + b[1..];
    }
  }

  lemma {:induction false} LessTransitive(a: Text, b: Text, c: Text)
    requires Less(a, b) && Less(b, c)
    ensures Less(a, c)
  {
    if a != [] && a[0] == b[0] == c[0] { LessTransitive(a[1..], b[1..], c[1..]); }
  }

  /** `k` is where the two texts part, and there `a` ends or has the smaller unit. */
  ghost predicate PartsAt(a: Text, b: Text, k: nat) {
    k <= |a| && k < |b| && a[..k] == b[..k] && (k == |a| || a[k] < b[k])
  }

  /** Section 3.2.3 of RFC 8785: the first unit in which two names differ decides, and a
      name that is a prefix of the other comes first. */
  lemma {:induction false} LessIff(a: Text, b: Text)
    ensures Less(a, b) <==> exists k :: PartsAt(a, b, k)
  {
    if a == [] || b == [] {
      if Less(a, b) { assert PartsAt(a, b, 0); }
    } else if a[0] != b[0] {
      if Less(a, b) { assert PartsAt(a, b, 0); }
      forall k: nat | 0 < k <= |a| && k < |b| ensures a[..k] != b[..k] { assert a[..k][0] != b[..k][0]; }
    } else {
      LessIff(a[1..], b[1..]);
      if Less(a, b) {
        var k: nat :| PartsAt(a[1..], b[1..], k);
        assert a[..k + 1] == [a[0]] + a[1..][..k] && b[..k + 1] == [b[0]] + b[1..][..k];
        assert PartsAt(a, b, k + 1);
      }
      if k: nat :| PartsAt(a, b, k) {
        assert a[1..][..k - 1] == a[..k][1..] && b[1..][..k - 1] == b[..k][1..];
        assert PartsAt(a[1..], b[1..], k - 1);
      }
    }
  }
}
