/** UTF-8 (RFC 3629) of UTF-16 text, as `Buffer.from(s, "utf8")` writes it: a surrogate
    without its partner becomes U+FFFD. On well-formed text nothing is lost. */
module Utf8Text {
  import opened Options
  import opened CanonicalText
  import opened Base64Url

  /** A text of ASCII characters. */
  function Ascii(s: string): (t: Text)
    ensures |t| == |s|
    ensures forall i :: 0 <= i < |s| ==> t[i] == s[i] as int % 0x80
  {
    if s == [] then [] else Ascii(s[..|s| - 1]) + [s[|s| - 1] as int % 0x80]
  }

  function One(u: Unit): (r: Bytes)
    ensures 1 <= |r| <= 3
  {
    if u < 0x80 then [u]
    else if u < 0x800 then [0xC0 + u / 0x40, 0x80 + u % 0x40]
    else if High(u) || Low(u) then [0xEF, 0xBF, 0xBD]
    else [0xE0 + u / 0x1000, 0x80 + u / 0x40 % 0x40, 0x80 + u % 0x40]
  }

  /** The four bytes of a surrogate pair. */
  function Pair(h: Unit, l: Unit): (r: Bytes)
    requires High(h) && Low(l)
    ensures |r| == 4
  {
    var c := (h - 0xD800) * 0x400 + (l - 0xDC00) + 0x1_0000;
    [0xF0 + c / 0x4_0000, 0x80 + c / 0x1000 % 0x40, 0x80 + c / 0x40 % 0x40, 0x80 + c % 0x40]
  }

  predicate StartsPair(t: Text) {
    |t| > 1 && High(t[0]) && Low(t[1])
  }

  function Utf8(t: Text): Bytes
    decreases |t|
  {
    if t == [] then []
    else if StartsPair(t) then Pair(t[0], t[1]) + Utf8(t[2..])
    else One(t[0]) + Utf8(t[1..])
  }

  /** Cutting between `s` and `t` does not cut a surrogate pair. */
  predicate CleanCut(s: Text, t: Text) {
    s == [] || t == [] || !High(s[|s| - 1]) || !Low(t[0])
  }

  lemma {:induction false} Utf8Concat(s: Text, t: Text)
    requires CleanCut(s, t)
    ensures Utf8(s + t) == Utf8(s) + Utf8(t)
    decreases |s|
  {
    if s == [] {
      assert s + t == t;
    } else {
      var n := if StartsPair(s) then 2 else 1;
      assert StartsPair(s + t) <==> StartsPair(s);
      assert (s + t)[n..] == s[n..] + t;
      Utf8Concat(s[n..], t);
    }
  }

  lemma {:induction false} Utf8Ascii(s: Text)
    requires forall i :: 0 <= i < |s| ==> s[i] < 0x80
    ensures |Utf8(s)| == |s|
  {
    if s != [] { Utf8Ascii(s[1..]); }
  }

  // ---- reading back ----

  predicate Continues(b: Bytes, n: nat) {
    n < |b| && forall i :: 1 <= i <= n ==> 0x80 <= b[i] < 0xC0
  }

  /** The first character of a byte string (section 3 of RFC 3629), as one code unit or a
      surrogate pair, and how many bytes it takes. Longer forms than needed and encoded
      surrogates are refused. */
  function First(b: Bytes): (r: Option<(Text, nat)>)
    ensures r.Some? ==> 1 <= r.value.1 <= |b| && r.value.1 <= 4
  {
    if b == [] then None
    else if b[0] < 0x80 then Some(([b[0] as Unit], 1))
    else if 0xC2 <= b[0] < 0xE0 && Continues(b, 1) then Some(([((b[0] - 0xC0) as int * 0x40 + (b[1] - 0x80) as int) as Unit], 2))
    else if 0xE0 <= b[0] < 0xF0 && Continues(b, 2) then
      var c := (b[0] - 0xE0) as int * 0x1000 + (b[1] - 0x80) as int * 0x40 + (b[2] - 0x80) as int;
      if c < 0x800 || 0xD800 <= c < 0xE000 then None else Some(([c as Unit], 3))
    else if 0xF0 <= b[0] < 0xF5 && Continues(b, 3) then
      var c := (b[0] - 0xF0) as int * 0x4_0000 + (b[1] - 0x80) as int * 0x1000 + (b[2] - 0x80) as int * 0x40 + (b[3] - 0x80) as int;
      if 0x1_0000 <= c < 0x11_0000 then
        Some(([(0xD800 + (c - 0x1_0000) / 0x400) as Unit, (0xDC00 + (c - 0x1_0000) % 0x400) as Unit], 4))
      else None
    else None
  }

  lemma OneReads(u: Unit, x: Bytes)
    requires !High(u) && !Low(u)
    ensures First(One(u) + x) == Some(([u], |One(u)|))
  {
    var b := One(u) + x;
    assert b[0] == One(u)[0];
    if u >= 0x80 { assert b[1] == One(u)[1]; }
    if u >= 0x800 {
      assert b[2] == One(u)[2];
      assert u / 0x1000 == u / 0x40 / 0x40;
    }
  }

  lemma PairReads(h: Unit, l: Unit, x: Bytes)
    requires High(h) && Low(l)
    ensures First(Pair(h, l) + x) == Some(([h, l], 4))
  {
    var p := Pair(h, l);
    var b := p + x;
    assert b[0] == p[0] && b[1] == p[1] && b[2] == p[2] && b[3] == p[3];
    var c: int := (h - 0xD800) as int * 0x400 + (l - 0xDC00) as int + 0x1_0000;
    assert c / 0x1000 == c / 0x40 / 0x40 && c / 0x4_0000 == c / 0x40 / 0x40 / 0x40;
    assert (c - 0x1_0000) / 0x400 == (h - 0xD800) as int && (c - 0x1_0000) % 0x400 == (l - 0xDC00) as int;
  }

  lemma TailPaired(t: Text, n: nat)
    requires !HasLone(t) && t != [] && n == (if StartsPair(t) then 2 else 1)
    ensures !HasLone(t[n..]) && (n == 1 ==> !High(t[0]) && !Low(t[0]))
  {
    assert !Lone(t, 0);
    forall i | 0 <= i < |t[n..]| ensures !Lone(t[n..], i) { assert !Lone(t, i + n); }
  }

  /** Well-formed texts with the same bytes are equal. */
  lemma {:induction false} Utf8Injective(s: Text, t: Text)
    requires !HasLone(s) && !HasLone(t)
    ensures Utf8(s) == Utf8(t) <==> s == t
    decreases |s|
  {
    if s == [] || t == [] {
      NotEmpty(s);
      NotEmpty(t);
    } else {
      var m, n := if StartsPair(s) then 2 else 1, if StartsPair(t) then 2 else 1;
      TailPaired(s, m);
      TailPaired(t, n);
      FirstReads(s);
      FirstReads(t);
      hide HasLone, First, One, Pair;
      if Utf8(s) == Utf8(t) {
        assert s[..m] == t[..n];
        Utf8Injective(s[m..], t[n..]);
        assert s == s[..m] + s[m..] && t == t[..n] + t[n..];
      }
    }
  }

  lemma NotEmpty(t: Text)
    ensures Utf8(t) == [] <==> t == []
  {
  }

  lemma FirstReads(t: Text)
    requires t != [] && !HasLone(t)
    ensures var n := if StartsPair(t) then 2 else 1;
            && First(Utf8(t)).Some? && First(Utf8(t)).value.0 == t[..n]
            && First(Utf8(t)).value.1 <= |Utf8(t)| && Utf8(t)[First(Utf8(t)).value.1..] == Utf8(t[n..])
  {
    TailPaired(t, if StartsPair(t) then 2 else 1);
    if StartsPair(t) { PairReads(t[0], t[1], Utf8(t[2..])); } else { OneReads(t[0], Utf8(t[1..])); }
    hide First, One, Pair, HasLone;
  }

  // ---- exactly what is lost ----

  /** The text with every lone surrogate replaced by U+FFFD. */
  function Scrub(t: Text): (r: Text)
    ensures |r| == |t|
    decreases |t|
  {
    if t == [] then []
    else if StartsPair(t) then [t[0], t[1]] + Scrub(t[2..])
    else [if High(t[0]) || Low(t[0]) then 0xFFFD else t[0]] + Scrub(t[1..])
  }

  /** Exactly the lone surrogates are replaced. */
  lemma {:induction false} ScrubAt(t: Text, i: nat)
    requires i < |t|
    ensures Scrub(t)[i] == if Lone(t, i) then 0xFFFD else t[i]
    decreases |t|
  {
    var n := if StartsPair(t) then 2 else 1;
    if i >= n {
      ScrubAt(t[n..], i - n);
      assert Lone(t[n..], i - n) == Lone(t, i);
    }
  }

  lemma ScrubIsClean(t: Text)
    ensures !HasLone(Scrub(t))
  {
    var r := Scrub(t);
    forall i | 0 <= i < |r| ensures !Lone(r, i) {
      ScrubAt(t, i);
      if i > 0 { ScrubAt(t, i - 1); }
      if i + 1 < |t| { ScrubAt(t, i + 1); }
      hide Scrub;
    }
  }

  /** Scrubbing changes no byte. */
  lemma {:induction false} ScrubBytes(t: Text)
    ensures Utf8(Scrub(t)) == Utf8(t)
    decreases |t|
  {
    if t != [] {
      var r, n := Scrub(t), if StartsPair(t) then 2 else 1;
      ScrubBytes(t[n..]);
      assert r[n..] == Scrub(t[n..]);
      assert StartsPair(r) <==> StartsPair(t);
      if n == 1 { assert One(r[0]) == One(t[0]); }
      hide One, Pair, Scrub;
    }
  }

  /** One lone surrogate in place of another, anywhere in a text. */
  lemma LoneForLone(t: Text, i: nat, u: Unit)
    requires i < |t| && Lone(t, i) && Lone(t[i := u], i)
    ensures Scrub(t[i := u]) == Scrub(t) && Utf8(t[i := u]) == Utf8(t)
  {
    var r := t[i := u];
    forall j | 0 <= j < |t| ensures Scrub(r)[j] == Scrub(t)[j] {
      ScrubAt(t, j);
      ScrubAt(r, j);
      assert Lone(r, j) == Lone(t, j);
    }
    ScrubBytes(t);
    ScrubBytes(r);
  }

  /** A text without lone surrogates is its own scrubbed form. */
  lemma {:induction false} ScrubOfClean(t: Text)
    requires !HasLone(t)
    ensures Scrub(t) == t
    decreases |t|
  {
    if t != [] {
      var n := if StartsPair(t) then 2 else 1;
      TailPaired(t, n);
      ScrubOfClean(t[n..]);
    }
  }

  /** Two texts have the same bytes exactly if they differ in lone surrogates alone. */
  lemma Utf8Iff(s: Text, t: Text)
    ensures Utf8(s) == Utf8(t) <==> Scrub(s) == Scrub(t)
  {
    ScrubBytes(s);
    ScrubBytes(t);
    ScrubIsClean(s);
    ScrubIsClean(t);
    Utf8Injective(Scrub(s), Scrub(t));
  }

  // ---- reading whole texts ----

  /** A text from its bytes, character by character; None where they are not UTF-8. */
  function ReadUtf8(b: Bytes): Option<Text>
    decreases |b|
  {
    if b == [] then Some([])
    else
      var first := First(b);
      if first.None? then None
      else
        var rest := ReadUtf8(b[first.value.1..]);
        if rest.None? then None else Some(first.value.0 + rest.value)
  }

  lemma {:induction false} CleanReads(t: Text)
    requires !HasLone(t)
    ensures ReadUtf8(Utf8(t)) == Some(t)
    decreases |t|
  {
    NotEmpty(t);
    if t != [] {
      var n := if StartsPair(t) then 2 else 1;
      FirstReads(t);
      TailPaired(t, n);
      CleanReads(t[n..]);
      hide First, One, Pair, HasLone, Utf8;
      assert t == t[..n] + t[n..];
    }
  }

  /** What is written reads back, but for lone surrogates, which read back as U+FFFD. */
  lemma Utf8Reads(t: Text)
    ensures ReadUtf8(Utf8(t)) == Some(Scrub(t))
  {
    ScrubBytes(t);
    ScrubIsClean(t);
    CleanReads(Scrub(t));
  }

  lemma OneWrites(b: Bytes)
    requires First(b).Some? && First(b).value.1 < 4
    ensures var (c, n) := First(b).value; |c| == 1 && !High(c[0]) && !Low(c[0]) && One(c[0]) == b[..n]
  {
    var (c, n) := First(b).value;
    if n == 3 {
      var u: int, x: int, y: int := c[0], (b[1] - 0x80) as int, (b[2] - 0x80) as int;
      assert u / 0x40 == (b[0] - 0xE0) as int * 0x40 + x && u % 0x40 == y;
      assert u / 0x1000 == u / 0x40 / 0x40;
      assert One(c[0]) == [b[0], b[1], b[2]];
    }
  }

  lemma PairWrites(b: Bytes)
    requires First(b).Some? && First(b).value.1 == 4
    ensures var (c, n) := First(b).value; |c| == 2 && High(c[0]) && Low(c[1]) && Pair(c[0], c[1]) == b[..4]
  {
    var c := First(b).value.0;
    var x: int, y: int, z: int := (b[1] - 0x80) as int, (b[2] - 0x80) as int, (b[3] - 0x80) as int;
    var n: int := (b[0] - 0xF0) as int * 0x4_0000 + x * 0x1000 + y * 0x40 + z;
    var m := n - 0x1_0000;
    assert (c[0] - 0xD800) as int * 0x400 + (c[1] - 0xDC00) as int == m by { assert m / 0x400 * 0x400 + m % 0x400 == m; }
    Digits(n, (b[0] - 0xF0) as int, x, y, z);
    hide First;
    assert Pair(c[0], c[1]) == [b[0], b[1], b[2], b[3]];
  }

  lemma Digits(n: nat, w: nat, x: nat, y: nat, z: nat)
    requires x < 0x40 && y < 0x40 && z < 0x40 && n == w * 0x4_0000 + x * 0x1000 + y * 0x40 + z
    ensures n / 0x4_0000 == w && n / 0x1000 % 0x40 == x && n / 0x40 % 0x40 == y && n % 0x40 == z
  {
    assert n / 0x40 == w * 0x1000 + x * 0x40 + y;
    assert n / 0x1000 == n / 0x40 / 0x40 && n / 0x4_0000 == n / 0x1000 / 0x40;
  }

  /** The bytes of the first character are those that are written for it. */
  lemma FirstWrites(b: Bytes)
    requires First(b).Some?
    ensures var (c, n) := First(b).value; !HasLone(c) && c != [] && Utf8(c) == b[..n]
  {
    var (c, n) := First(b).value;
    if n == 4 { PairWrites(b); } else { OneWrites(b); }
    hide First, One, Pair;
    assert Utf8(c[|c|..]) == [];
    if |c| == 2 { assert !Lone(c, 0) && !Lone(c, 1); assert Utf8(c) == Pair(c[0], c[1]) + []; }
    else { assert !Lone(c, 0); assert Utf8(c) == One(c[0]) + []; }
  }

  /** Nothing else reads as this text: bytes that are read are the bytes of what was read,
      which has no lone surrogate. */
  lemma {:induction false} ReadIsWritten(b: Bytes)
    requires ReadUtf8(b).Some?
    ensures var t := ReadUtf8(b).value; !HasLone(t) && Utf8(t) == b
    decreases |b|
  {
    if b != [] {
      var (c, n) := First(b).value;
      var t := ReadUtf8(b[n..]).value;
      FirstWrites(b);
      ReadIsWritten(b[n..]);
      hide First, Utf8;
      CleanJoin(c, t);
      assert b == b[..n] + b[n..];
    }
  }

  lemma CleanJoin(c: Text, t: Text)
    requires !HasLone(c) && !HasLone(t)
    ensures !HasLone(c + t) && Utf8(c + t) == Utf8(c) + Utf8(t)
  {
    if c != [] { assert !Lone(c, |c| - 1); }
    if t != [] { assert !Lone(t, 0); }
    Utf8Concat(c, t);
    hide Utf8;
    forall i | 0 <= i < |c + t| ensures !Lone(c + t, i) {
      if i < |c| { assert !Lone(c, i); } else { assert !Lone(t, i - |c|); }
    }
  }
}
