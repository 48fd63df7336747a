/** The byte layouts that the handshake signature and the pairing proof cover: fields
    prefixed with their length, around one raw field. */
module Transcripts {
  import opened Options
  import opened Base64Url
  import opened CanonicalText
  import opened Utf8Text

  const MAX_U32 := 0x1_0000_0000

  /** Big-endian, four bytes. */
  function U32(n: nat): (r: Bytes)
    requires n < MAX_U32
    ensures |r| == 4
  {
    [n / 0x100_0000, n / 0x1_0000 % 0x100, n / 0x100 % 0x100, n % 0x100]
  }

  /** A length that does not fit makes the writer throw. */
  function Lp(x: Bytes): Option<Bytes> {
    if |x| < MAX_U32 then Some(U32(|x|) + x) else None
  }

  function Ascii(s: string): (r: Bytes)
    requires forall i :: 0 <= i < |s| ==> s[i] < 128 as char
    ensures |r| == |s|
    ensures forall i :: 0 <= i < |s| ==> r[i] == s[i] as int
  {
    if s == [] then [] else Ascii(s[..|s| - 1]) + [s[|s| - 1] as int]
  }

  const DOMAIN_TAG := "hugin-agent/auth/v1"
  const PAIRING_DOMAIN_TAG := "hugin-pair-pop-v1"
  const ALG := "ed25519"

  datatype Part = Prefixed(bytes: Bytes) | Raw(bytes: Bytes)

  /** `Buffer.concat` of the parts; throws when a prefixed one is too long. */
  function Layout(parts: seq<Part>): Option<Bytes> {
    if parts == [] then Some([])
    else
      var head := if parts[0].Raw? then Some(parts[0].bytes) else Lp(parts[0].bytes);
      var tail := Layout(parts[1..]);
      if head.None? || tail.None? then None else Some(head.value + tail.value)
  }

  datatype Handshake = Handshake(
    challenge: Bytes, nonceRaw: Bytes, agent: Bytes, key: Bytes, version: Bytes, tenant: Bytes, origin: Bytes)

  function HandshakeParts(f: Handshake): seq<Part> {
    [Prefixed(Ascii(DOMAIN_TAG)), Prefixed(f.challenge), Raw(f.nonceRaw), Prefixed(f.agent), Prefixed(f.key),
     Prefixed(f.version), Prefixed(Ascii(ALG)), Prefixed(f.tenant), Prefixed(f.origin)]
  }

  function BuildTranscript(f: Handshake): Option<Bytes> {
    Layout(HandshakeParts(f))
  }

  datatype Pairing = Pairing(secret: string, publicRaw: Bytes, origin: Bytes, version: Bytes)

  function PairingParts(f: Pairing): seq<Part>
    requires AllInAlphabet(f.secret)
  {
    [Prefixed(Ascii(PAIRING_DOMAIN_TAG)), Prefixed(Ascii(f.secret)), Raw(f.publicRaw), Prefixed(f.origin), Prefixed(f.version)]
  }

  function BuildPairingTranscript(f: Pairing): Option<Bytes> {
    if !Canonical32(f.secret) || |f.publicRaw| != 32 then None else Layout(PairingParts(f))
  }

  // ---- unambiguity ----

  /** The number that bytes spell, most significant first. */
  function BigEndian(b: Bytes): int {
    if b == [] then 0 else 256 * BigEndian(b[..|b| - 1]) + b[|b| - 1] as int
  }

  lemma U32IsBigEndian(n: nat)
    requires n < MAX_U32
    ensures BigEndian(U32(n)) == n
  {
    var b := U32(n);
    assert b[..3][..2] == b[..2] && b[..2][..1] == b[..1] && b[..1][..0] == [];
    assert BigEndian(b[..1]) == b[0] as int && BigEndian(b[..2]) == 256 * b[0] as int + b[1] as int;
    assert BigEndian(b[..3]) == 256 * BigEndian(b[..2]) + b[2];
    assert n / 0x1_0000 == n / 0x100 / 0x100 && n / 0x100_0000 == n / 0x100 / 0x100 / 0x100;
  }

  lemma U32Injective(m: nat, n: nat)
    requires m < MAX_U32 && n < MAX_U32 && U32(m) == U32(n)
    ensures m == n
  {
    U32IsBigEndian(m);
    U32IsBigEndian(n);
  }

  /** A prefixed field ends where it says, whatever follows. */
  lemma LpPrefix(a: Bytes, x: Bytes, b: Bytes, y: Bytes)
    requires |a| < MAX_U32 && |b| < MAX_U32
    requires U32(|a|) + a + x == U32(|b|) + b + y
    ensures a == b && x == y
  {
    hide U32;
    var s, t := U32(|a|) + a + x, U32(|b|) + b + y;
    assert s[..4] == U32(|a|) && t[..4] == U32(|b|);
    U32Injective(|a|, |b|);
    assert s[4..4 + |a|] == a && t[4..4 + |a|] == b;
    assert s[4 + |a|..] == x && t[4 + |a|..] == y;
  }

  /** Same shape: the same kind of part at each place, raw parts of equal length. */
  ghost predicate Aligned(p: seq<Part>, q: seq<Part>) {
    && |p| == |q|
    && forall i :: 0 <= i < |p| ==> (p[i].Raw? <==> q[i].Raw?) && (p[i].Raw? ==> |p[i].bytes| == |q[i].bytes|)
  }

  /** Two layouts of the same shape have equal bytes only if every part is equal. */
  lemma {:induction false} LayoutInjective(p: seq<Part>, q: seq<Part>)
    requires Aligned(p, q) && Layout(p).Some? && Layout(p) == Layout(q)
    ensures p == q
  {
    if p != [] {
      var x, y := Layout(p[1..]).value, Layout(q[1..]).value;
      var a, b := p[0].bytes, q[0].bytes;
      if p[0].Raw? {
        assert (a + x)[..|a|] == a && (b + y)[..|a|] == b;
        assert (a + x)[|a|..] == x && (b + y)[|a|..] == y;
      } else {
        LpPrefix(a, x, b, y);
      }
      LayoutInjective(p[1..], q[1..]);
      assert p == [p[0]] + p[1..] && q == [q[0]] + q[1..];
    }
  }

  lemma AsciiInjective(s: string, t: string)
    requires forall i :: 0 <= i < |s| ==> s[i] < 128 as char
    requires forall i :: 0 <= i < |t| ==> t[i] < 128 as char
    requires Ascii(s) == Ascii(t)
    ensures s == t
  {
    forall i | 0 <= i < |s| ensures s[i] == t[i] { assert Ascii(s)[i] == Ascii(t)[i]; }
  }

  /** Up to the length of the nonce, a handshake transcript determines every field: two
      with the same bytes are of the same fields exactly when their nonces are equally
      long. */
  lemma HandshakeUnambiguousIff(f: Handshake, g: Handshake)
    requires BuildTranscript(f).Some?
    ensures f == g <==> BuildTranscript(f) == BuildTranscript(g) && |f.nonceRaw| == |g.nonceRaw|
  {
    if BuildTranscript(f) == BuildTranscript(g) && |f.nonceRaw| == |g.nonceRaw| {
      var p, q := HandshakeParts(f), HandshakeParts(g);
      LayoutInjective(p, q) by { hide Layout; }
      assert p[1] == q[1] && p[2] == q[2] && p[3] == q[3] && p[4] == q[4] && p[5] == q[5] && p[7] == q[7] && p[8] == q[8];
    }
  }

  lemma LayoutRaw(p: seq<Part>, b: Bytes)
    ensures Layout([Raw(b)] + p) == if Layout(p).None? then None else Some(b + Layout(p).value)
  {
    assert ([Raw(b)] + p)[1..] == p;
  }

  lemma LayoutPrefixed(p: seq<Part>, b: Bytes)
    ensures Layout([Prefixed(b)] + p) ==
            if Layout(p).None? || |b| >= MAX_U32 then None else Some(U32(|b|) + b + Layout(p).value)
  {
    assert ([Prefixed(b)] + p)[1..] == p;
  }

  /** The builder does not check the nonce length, and without that check transcripts
      are ambiguous: an agent id that reads as a prefixed `x` can lend its own prefix to
      the nonce. */
  lemma NonceLengthMatters(f: Handshake, x: Bytes)
    requires |x| < MAX_U32 - 4 && f.agent == U32(|x|) + x
    ensures var g := f.(nonceRaw := f.nonceRaw + U32(|f.agent|), agent := x);
            g != f && BuildTranscript(f) == BuildTranscript(g)
  {
    hide U32, Ascii, Layout;
    var g := f.(nonceRaw := f.nonceRaw + U32(|f.agent|), agent := x);
    var head := [Prefixed(Ascii(DOMAIN_TAG)), Prefixed(f.challenge)];
    var tail := [Prefixed(f.key), Prefixed(f.version), Prefixed(Ascii(ALG)), Prefixed(f.tenant), Prefixed(f.origin)];
    var p, q := [Prefixed(f.agent)] + tail, [Prefixed(x)] + tail;
    LayoutPrefixed(tail, f.agent);
    LayoutPrefixed(tail, x);
    LayoutRaw(p, f.nonceRaw);
    LayoutRaw(q, g.nonceRaw);
    if Layout(tail).Some? {
      var t := Layout(tail).value;
      assert f.nonceRaw + (U32(|f.agent|) + f.agent + t) == g.nonceRaw + (U32(|x|) + x + t);
    }
    var u, v := [Raw(f.nonceRaw)] + p, [Raw(g.nonceRaw)] + q;
    assert Layout(u) == Layout(v);
    LayoutPrefixed(u, f.challenge);
    LayoutPrefixed(v, f.challenge);
    LayoutPrefixed([Prefixed(f.challenge)] + u, Ascii(DOMAIN_TAG));
    LayoutPrefixed([Prefixed(f.challenge)] + v, Ascii(DOMAIN_TAG));
    assert HandshakeParts(f) == [Prefixed(Ascii(DOMAIN_TAG))] + ([Prefixed(f.challenge)] + u);
    assert HandshakeParts(g) == [Prefixed(Ascii(DOMAIN_TAG))] + ([Prefixed(f.challenge)] + v);
    assert |g.nonceRaw| == |f.nonceRaw| + 4;
  }

  /** A pairing transcript determines every field: the builder checks what it needs. */
  lemma PairingUnambiguous(f: Pairing, g: Pairing)
    requires BuildPairingTranscript(f).Some?
    ensures BuildPairingTranscript(f) == BuildPairingTranscript(g) <==> f == g
  {
    if BuildPairingTranscript(f) == BuildPairingTranscript(g) { SamePairing(f, g); }
    hide Canonical32, Layout;
  }

  lemma SamePairing(f: Pairing, g: Pairing)
    requires AllInAlphabet(f.secret) && AllInAlphabet(g.secret) && |f.publicRaw| == |g.publicRaw|
    requires Layout(PairingParts(f)).Some? && Layout(PairingParts(f)) == Layout(PairingParts(g))
    ensures f == g
  {
    hide Ascii, AllInAlphabet, Layout;
    var p, q := PairingParts(f), PairingParts(g);
    LayoutInjective(p, q);
    assert p[1] == q[1] && p[2] == q[2] && p[3] == q[3] && p[4] == q[4];
    SecretBytes(f.secret, g.secret);
  }

  lemma SecretBytes(s: string, t: string)
    requires AllInAlphabet(s) && AllInAlphabet(t) && Ascii(s) == Ascii(t)
    ensures s == t
  {
    AsciiInjective(s, t);
  }

  /** No signature over one kind of transcript is ever one over the other. */
  lemma DomainsAreSeparate(f: Handshake, g: Pairing)
    requires BuildTranscript(f).Some? && BuildPairingTranscript(g).Some?
    ensures BuildTranscript(f) != BuildPairingTranscript(g)
  {
    var p, q := HandshakeParts(f), PairingParts(g);
    hide Layout, Ascii, Canonical32, U32;
    StartsWithLength(p);
    StartsWithLength(q);
    assert |p[0].bytes| == 19 && |q[0].bytes| == 17;
    if BuildTranscript(f) == BuildPairingTranscript(g) { U32Injective(19, 17); }
  }

  lemma StartsWithLength(p: seq<Part>)
    requires p != [] && p[0].Prefixed? && Layout(p).Some?
    ensures |p[0].bytes| < MAX_U32 && |Layout(p).value| >= 4 && Layout(p).value[..4] == U32(|p[0].bytes|)
  {
    assert Layout(p).value[..4] == U32(|p[0].bytes|);
  }

  // ---- text fields ----

  /** The fields as the callers have them: text, and a nonce decoded from 32 bytes. */
  datatype HandshakeFields = HandshakeFields(
    challenge: Text, nonceRaw: Bytes, agent: Text, key: Text, version: Text, tenant: Text, origin: Text)

  function Encoded(h: HandshakeFields): Handshake {
    Handshake(Utf8(h.challenge), h.nonceRaw, Utf8(h.agent), Utf8(h.key), Utf8(h.version), Utf8(h.tenant), Utf8(h.origin))
  }

  predicate WellFormed(h: HandshakeFields) {
    && !HasLone(h.challenge) && !HasLone(h.agent) && !HasLone(h.key)
    && !HasLone(h.version) && !HasLone(h.tenant) && !HasLone(h.origin)
  }

  /** The fields as UTF-8 carries them. */
  function Scrubbed(h: HandshakeFields): HandshakeFields {
    HandshakeFields(Scrub(h.challenge), h.nonceRaw, Scrub(h.agent), Scrub(h.key), Scrub(h.version), Scrub(h.tenant), Scrub(h.origin))
  }

  lemma EncodedIff(h: HandshakeFields, k: HandshakeFields)
    ensures Encoded(h) == Encoded(k) <==> Scrubbed(h) == Scrubbed(k)
  {
    Utf8Iff(h.challenge, k.challenge);
    Utf8Iff(h.agent, k.agent);
    Utf8Iff(h.key, k.key);
    Utf8Iff(h.version, k.version);
    Utf8Iff(h.tenant, k.tenant);
    Utf8Iff(h.origin, k.origin);
    hide Utf8, Scrub;
  }

  /** Exactly what a handshake transcript determines: nonces of equal length, and every
      text field up to the lone surrogates that UTF-8 cannot carry. */
  lemma HandshakeTextIff(h: HandshakeFields, k: HandshakeFields)
    requires BuildTranscript(Encoded(h)).Some?
    ensures BuildTranscript(Encoded(h)) == BuildTranscript(Encoded(k)) && |h.nonceRaw| == |k.nonceRaw|
            <==> Scrubbed(h) == Scrubbed(k)
  {
    HandshakeUnambiguousIff(Encoded(h), Encoded(k));
    EncodedIff(h, k);
    hide BuildTranscript, Utf8, Scrub;
  }

  /** With 32-byte nonces and well-formed text, a transcript determines every field. */
  lemma HandshakeUnambiguous(h: HandshakeFields, k: HandshakeFields)
    requires |h.nonceRaw| == 32 && |k.nonceRaw| == 32 && WellFormed(h) && WellFormed(k)
    requires BuildTranscript(Encoded(h)).Some?
    ensures BuildTranscript(Encoded(h)) == BuildTranscript(Encoded(k)) <==> h == k
  {
    HandshakeTextIff(h, k);
    CleanIsScrubbed(h);
    CleanIsScrubbed(k);
    hide BuildTranscript, Utf8, Scrub, HasLone;
  }

  lemma CleanIsScrubbed(h: HandshakeFields)
    requires WellFormed(h)
    ensures Scrubbed(h) == h
  {
    ScrubOfClean(h.challenge);
    ScrubOfClean(h.agent);
    ScrubOfClean(h.key);
    ScrubOfClean(h.version);
    ScrubOfClean(h.tenant);
    ScrubOfClean(h.origin);
    hide Scrub, HasLone;
  }

  /** A lone surrogate in place of another, anywhere in any text field, changes nothing in
      the transcript. */
  lemma LoneSurrogatesCollide(h: HandshakeFields, t: Text, i: nat, u: Unit)
    requires i < |t| && Lone(t, i) && Lone(t[i := u], i)
    ensures BuildTranscript(Encoded(h.(challenge := t))) == BuildTranscript(Encoded(h.(challenge := t[i := u])))
    ensures BuildTranscript(Encoded(h.(agent := t))) == BuildTranscript(Encoded(h.(agent := t[i := u])))
    ensures BuildTranscript(Encoded(h.(key := t))) == BuildTranscript(Encoded(h.(key := t[i := u])))
    ensures BuildTranscript(Encoded(h.(version := t))) == BuildTranscript(Encoded(h.(version := t[i := u])))
    ensures BuildTranscript(Encoded(h.(tenant := t))) == BuildTranscript(Encoded(h.(tenant := t[i := u])))
    ensures BuildTranscript(Encoded(h.(origin := t))) == BuildTranscript(Encoded(h.(origin := t[i := u])))
    ensures u != t[i] ==> t[i := u] != t
  {
    LoneForLone(t, i, u);
    hide BuildTranscript, Utf8, Scrub;
    assert t[i := u][i] == u;
  }

  datatype PairingFields = PairingFields(secret: string, publicRaw: Bytes, origin: Text, version: Text)

  function EncodedPairing(h: PairingFields): Pairing {
    Pairing(h.secret, h.publicRaw, Utf8(h.origin), Utf8(h.version))
  }

  /** The same for a pairing transcript. */
  lemma PairingTextIff(h: PairingFields, k: PairingFields)
    requires BuildPairingTranscript(EncodedPairing(h)).Some?
    ensures BuildPairingTranscript(EncodedPairing(h)) == BuildPairingTranscript(EncodedPairing(k)) <==>
            h.secret == k.secret && h.publicRaw == k.publicRaw
            && Scrub(h.origin) == Scrub(k.origin) && Scrub(h.version) == Scrub(k.version)
  {
    PairingUnambiguous(EncodedPairing(h), EncodedPairing(k));
    Utf8Iff(h.origin, k.origin);
    Utf8Iff(h.version, k.version);
    hide BuildPairingTranscript, Utf8, Scrub;
  }

  lemma PairingTextUnambiguous(h: PairingFields, k: PairingFields)
    requires !HasLone(h.origin) && !HasLone(h.version) && !HasLone(k.origin) && !HasLone(k.version)
    requires BuildPairingTranscript(EncodedPairing(h)).Some?
    ensures BuildPairingTranscript(EncodedPairing(h)) == BuildPairingTranscript(EncodedPairing(k)) <==> h == k
  {
    PairingTextIff(h, k);
    ScrubOfClean(h.origin);
    ScrubOfClean(h.version);
    ScrubOfClean(k.origin);
    ScrubOfClean(k.version);
    hide BuildPairingTranscript, Utf8, Scrub, HasLone;
  }
}
