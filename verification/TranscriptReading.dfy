/** Readers of the two signed layouts, written from what the protocol documents say of
    them. They say which field stands where; the writers are proved against them in both
    directions. */
module TranscriptReading {
  import opened Options
  import opened Base64Url
  import opened CanonicalText
  import opened Utf8Text
  import T = Transcripts

  // ---- the pieces ----

  /** A field behind its length in four bytes, most significant first, and what follows. */
  function ReadField(b: Bytes): Option<(Bytes, Bytes)> {
    if |b| < 4 then None
    else
      var n := b[0] as int * 0x100_0000 + b[1] as int * 0x1_0000 + b[2] as int * 0x100 + b[3] as int;
      if |b| - 4 < n then None else Some((b[4..4 + n], b[4 + n..]))
  }

  /** `count` fields in a row. */
  function ReadFields(b: Bytes, count: nat): (r: Option<(seq<Bytes>, Bytes)>)
    ensures r.Some? ==> |r.value.0| == count
  {
    if count == 0 then Some(([], b))
    else
      var first := ReadField(b);
      if first.None? then None
      else
        var rest := ReadFields(first.value.1, count - 1);
        if rest.None? then None else Some(([first.value.0] + rest.value.0, rest.value.1))
  }

  /** `before` fields, 32 raw bytes, `after` fields, and nothing more. */
  function ReadAround(b: Bytes, before: nat, after: nat): (r: Option<(seq<Bytes>, Bytes, seq<Bytes>)>)
    ensures r.Some? ==> |r.value.0| == before && |r.value.1| == 32 && |r.value.2| == after
  {
    var head := ReadFields(b, before);
    if head.None? || |head.value.1| < 32 then None
    else
      var tail := ReadFields(head.value.1[32..], after);
      if tail.None? || tail.value.1 != [] then None
      else Some((head.value.0, head.value.1[..32], tail.value.0))
  }

  /** The text whose UTF-8 bytes these are is this one. */
  predicate Spells(b: Bytes, s: string)
    requires forall i :: 0 <= i < |s| ==> s[i] < 128 as char
  {
    |b| == |s| && forall i :: 0 <= i < |s| ==> b[i] == s[i] as int
  }

  /** Domain tag, challenge, raw nonce, agent, key, version, algorithm, tenant, origin. */
  function ReadHandshake(b: Bytes): Option<T.Handshake> {
    var r := ReadAround(b, 2, 6);
    if r.None? then None
    else
      var (head, nonce, tail) := r.value;
      if !Spells(head[0], "hugin-agent/auth/v1") || !Spells(tail[3], "ed25519") then None
      else Some(T.Handshake(head[1], nonce, tail[0], tail[1], tail[2], tail[4], tail[5]))
  }

  /** Domain tag, secret, raw public key, origin, version. */
  function ReadPairing(b: Bytes): Option<(Bytes, Bytes, Bytes, Bytes)> {
    var r := ReadAround(b, 2, 2);
    if r.None? then None
    else
      var (head, key, tail) := r.value;
      if !Spells(head[0], "hugin-pair-pop-v1") then None else Some((head[1], key, tail[0], tail[1]))
  }

  // ---- the pieces as they are written ----

  function Prefixes(fields: seq<Bytes>): seq<T.Part> {
    if fields == [] then [] else [T.Prefixed(fields[0])] + Prefixes(fields[1..])
  }

  ghost predicate AllFit(fields: seq<Bytes>) {
    forall i :: 0 <= i < |fields| ==> |fields[i]| < 0x1_0000_0000
  }

  lemma {:induction false} FitCons(x: Bytes, fields: seq<Bytes>)
    ensures AllFit([x] + fields) <==> |x| < 0x1_0000_0000 && AllFit(fields)
  {
    var all := [x] + fields;
    assert all[0] == x;
    if AllFit(all) {
      forall i | 0 <= i < |fields| ensures |fields[i]| < 0x1_0000_0000 { assert all[i + 1] == fields[i]; }
    }
  }

  lemma FitNone()
    ensures AllFit([])
  {
  }

  lemma FitTwo(x: Bytes, y: Bytes)
    ensures AllFit([x, y]) <==> |x| < 0x1_0000_0000 && |y| < 0x1_0000_0000
  {
    FitCons(x, [y]);
    FitCons(y, []);
    assert [x] + [y] == [x, y] && [y] + [] == [y];
  }

  lemma LengthReads(n: nat)
    requires n < 0x1_0000_0000
    ensures var b := T.U32(n); b[0] as int * 0x100_0000 + b[1] as int * 0x1_0000 + b[2] as int * 0x100 + b[3] as int == n
  {
    assert n / 0x1_0000 == n / 0x100 / 0x100 && n / 0x100_0000 == n / 0x100 / 0x100 / 0x100;
  }

  /** And only those four bytes are the length `n`. */
  lemma LengthWrites(b: Bytes)
    requires |b| == 4
    ensures var n: int := b[0] as int * 0x100_0000 + b[1] as int * 0x1_0000 + b[2] as int * 0x100 + b[3] as int;
            0 <= n < 0x1_0000_0000 && T.U32(n) == b
  {
    var n: int := b[0] as int * 0x100_0000 + b[1] as int * 0x1_0000 + b[2] as int * 0x100 + b[3] as int;
    assert n / 0x100 == b[0] as int * 0x1_0000 + b[1] as int * 0x100 + b[2] as int;
    assert n / 0x1_0000 == n / 0x100 / 0x100 && n / 0x100_0000 == n / 0x1_0000 / 0x100;
  }

  lemma FieldReads(x: Bytes, rest: Bytes)
    requires |x| < 0x1_0000_0000
    ensures ReadField(T.U32(|x|) + x + rest) == Some((x, rest))
  {
    LengthReads(|x|);
    hide T.U32;
    var b := T.U32(|x|) + x + rest;
    assert b[..4] == T.U32(|x|) && b[0] == b[..4][0] && b[1] == b[..4][1] && b[2] == b[..4][2] && b[3] == b[..4][3];
    assert b[4..4 + |x|] == x && b[4 + |x|..] == rest;
  }

  lemma FieldWrites(b: Bytes)
    requires ReadField(b).Some?
    ensures var (x, rest) := ReadField(b).value; |x| < 0x1_0000_0000 && b == T.U32(|x|) + x + rest
  {
    LengthWrites(b[..4]);
    hide T.U32;
    var n: int := |ReadField(b).value.0|;
    assert b == b[..4] + b[4..4 + n] + b[4 + n..];
  }

  /** Fields in a row, before whatever comes next: written exactly if each fits its length,
      and then read back. */
  lemma {:induction false} FieldsRead(fields: seq<Bytes>, parts: seq<T.Part>)
    ensures T.Layout(Prefixes(fields) + parts).Some? <==> AllFit(fields) && T.Layout(parts).Some?
    ensures T.Layout(Prefixes(fields) + parts).Some? ==>
              ReadFields(T.Layout(Prefixes(fields) + parts).value, |fields|) == Some((fields, T.Layout(parts).value))
  {
    hide T.Layout, T.U32, Prefixes, ReadField, AllFit;
    if fields == [] {
      NoPrefixes(parts);
      FitNone();
    } else {
      var x, left := fields[0], fields[1..];
      var more := Prefixes(left) + parts;
      FieldsRead(left, parts);
      assert fields == [x] + left;
      FirstPrefix(x, left, parts);
      FitCons(x, left);
      T.LayoutPrefixed(more, x);
      if T.Layout(more).Some? && |x| < 0x1_0000_0000 { FieldReads(x, T.Layout(more).value); }
    }
  }

  lemma {:induction false} FieldsWrite(b: Bytes, count: nat, parts: seq<T.Part>)
    requires ReadFields(b, count).Some? && T.Layout(parts) == Some(ReadFields(b, count).value.1)
    ensures T.Layout(Prefixes(ReadFields(b, count).value.0) + parts) == Some(b)
    decreases count
  {
    hide T.Layout, ReadField, T.U32, Prefixes;
    var fields := ReadFields(b, count).value.0;
    if count == 0 {
      NoPrefixes(parts);
    } else {
      var (x, rest) := ReadField(b).value;
      FieldWrites(b);
      FieldsWrite(rest, count - 1, parts);
      var more := ReadFields(rest, count - 1).value.0;
      assert fields == [x] + more;
      FirstPrefix(x, more, parts);
      T.LayoutPrefixed(Prefixes(more) + parts, x);
    }
  }

  lemma NoPrefixes(parts: seq<T.Part>)
    ensures Prefixes([]) + parts == parts
  {
  }

  lemma FirstPrefix(x: Bytes, more: seq<Bytes>, parts: seq<T.Part>)
    ensures Prefixes([x] + more) + parts == [T.Prefixed(x)] + (Prefixes(more) + parts)
  {
    assert ([x] + more)[1..] == more;
  }

  lemma NothingLeft()
    ensures T.Layout([]) == Some([])
  {
  }

  function Around(head: seq<Bytes>, raw: Bytes, tail: seq<Bytes>): seq<T.Part> {
    Prefixes(head) + ([T.Raw(raw)] + (Prefixes(tail) + []))
  }

  lemma AroundReads(head: seq<Bytes>, raw: Bytes, tail: seq<Bytes>)
    ensures T.Layout(Around(head, raw, tail)).Some? <==> AllFit(head) && AllFit(tail)
    ensures T.Layout(Around(head, raw, tail)).Some? && |raw| == 32 ==>
              ReadAround(T.Layout(Around(head, raw, tail)).value, |head|, |tail|) == Some((head, raw, tail))
  {
    NothingLeft();
    FieldsRead(tail, []);
    var rest := Prefixes(tail) + [];
    T.LayoutRaw(rest, raw);
    FieldsRead(head, [T.Raw(raw)] + rest);
    hide T.Layout, Prefixes, ReadFields;
    if T.Layout(rest).Some? {
      var t := T.Layout(rest).value;
      assert (raw + t)[..|raw|] == raw && (raw + t)[|raw|..] == t;
    }
  }

  lemma AroundWrites(b: Bytes, before: nat, after: nat)
    requires ReadAround(b, before, after).Some?
    ensures var (head, raw, tail) := ReadAround(b, before, after).value; T.Layout(Around(head, raw, tail)) == Some(b)
  {
    var (head, raw, tail) := ReadAround(b, before, after).value;
    var mid := ReadFields(b, before).value.1;
    NothingLeft();
    FieldsWrite(mid[32..], after, []);
    var rest := Prefixes(tail) + [];
    T.LayoutRaw(rest, raw);
    assert mid == raw + mid[32..];
    FieldsWrite(b, before, [T.Raw(raw)] + rest);
  }

  // ---- the tags ----

  lemma TagSpells(s: string, b: Bytes)
    requires forall i :: 0 <= i < |s| ==> s[i] < 128 as char
    ensures Spells(b, s) <==> b == T.Ascii(s)
  {
  }

  lemma HandshakeTags(tag: Bytes, alg: Bytes)
    ensures Spells(tag, "hugin-agent/auth/v1") <==> tag == T.Ascii(T.DOMAIN_TAG)
    ensures Spells(alg, "ed25519") <==> alg == T.Ascii(T.ALG)
    ensures |T.Ascii(T.DOMAIN_TAG)| == 19 && |T.Ascii(T.ALG)| == 7
  {
    hide T.Ascii, Spells;
    TagSpells(T.DOMAIN_TAG, tag);
    TagSpells(T.ALG, alg);
  }

  // ---- handshakes ----

  lemma HandshakeLayout(f: T.Handshake)
    ensures T.HandshakeParts(f) == Around([T.Ascii(T.DOMAIN_TAG), f.challenge], f.nonceRaw,
                                          [f.agent, f.key, f.version, T.Ascii(T.ALG), f.tenant, f.origin])
  {
    var head, tail := [T.Ascii(T.DOMAIN_TAG), f.challenge], [f.agent, f.key, f.version, T.Ascii(T.ALG), f.tenant, f.origin];
    hide T.Ascii;
    PrefixesAre(head);
    PrefixesAre(tail);
  }

  lemma {:induction false} PrefixesAre(fields: seq<Bytes>)
    ensures |Prefixes(fields)| == |fields|
    ensures forall i :: 0 <= i < |fields| ==> Prefixes(fields)[i] == T.Prefixed(fields[i])
  {
    if fields != [] { PrefixesAre(fields[1..]); }
  }

  lemma FitHandshake(f: T.Handshake, head: seq<Bytes>, tail: seq<Bytes>)
    requires |head| == 2 && |head[0]| < 0x1_0000_0000 && head[1] == f.challenge
    requires |tail| == 6 && |tail[3]| < 0x1_0000_0000
    requires tail[0] == f.agent && tail[1] == f.key && tail[2] == f.version && tail[4] == f.tenant && tail[5] == f.origin
    ensures AllFit(head) && AllFit(tail) <==> AllFit([f.challenge, f.agent, f.key, f.version, f.tenant, f.origin])
  {
    var all := [f.challenge, f.agent, f.key, f.version, f.tenant, f.origin];
    if AllFit(head) && AllFit(tail) {
      assert |head[1]| < 0x1_0000_0000 && |tail[0]| < 0x1_0000_0000 && |tail[1]| < 0x1_0000_0000;
    }
    if AllFit(all) {
      assert |all[0]| < 0x1_0000_0000 && |all[1]| < 0x1_0000_0000 && |all[2]| < 0x1_0000_0000;
      assert |all[3]| < 0x1_0000_0000 && |all[4]| < 0x1_0000_0000 && |all[5]| < 0x1_0000_0000;
    }
  }

  /** A handshake transcript is written exactly if every field fits its length, and with a
      nonce of 32 bytes it reads back as its fields, each from its own place. */
  lemma HandshakeReads(f: T.Handshake)
    ensures T.BuildTranscript(f).Some? <==>
              AllFit([f.challenge, f.agent, f.key, f.version, f.tenant, f.origin])
    ensures T.BuildTranscript(f).Some? && |f.nonceRaw| == 32 ==> ReadHandshake(T.BuildTranscript(f).value) == Some(f)
  {
    var head, tail := [T.Ascii(T.DOMAIN_TAG), f.challenge], [f.agent, f.key, f.version, T.Ascii(T.ALG), f.tenant, f.origin];
    HandshakeLayout(f);
    AroundReads(head, f.nonceRaw, tail);
    HandshakeTags(head[0], tail[3]);
    hide T.Layout, T.HandshakeParts, T.Ascii, Around, ReadAround, Spells;
    FitHandshake(f, head, tail);
  }

  /** And nothing else reads as a handshake: what the reader accepts is the transcript of
      what it returns. */
  lemma HandshakeReadsOnly(b: Bytes)
    requires ReadHandshake(b).Some?
    ensures |ReadHandshake(b).value.nonceRaw| == 32 && T.BuildTranscript(ReadHandshake(b).value) == Some(b)
  {
    hide T.Layout, T.HandshakeParts, T.Ascii, Around, ReadAround, Spells;
    var f := ReadHandshake(b).value;
    var (head, nonce, tail) := ReadAround(b, 2, 6).value;
    AroundWrites(b, 2, 6);
    HandshakeTags(head[0], tail[3]);
    HandshakeLayout(f);
    assert head == [T.Ascii(T.DOMAIN_TAG), f.challenge];
    assert tail == [f.agent, f.key, f.version, T.Ascii(T.ALG), f.tenant, f.origin];
  }

  /** The same of text: every field that has no lone surrogate comes back as it was. */
  function ReadHandshakeText(b: Bytes): Option<T.HandshakeFields> {
    var r := ReadHandshake(b);
    if r.None? then None
    else
      var f := r.value;
      var challenge, agent, key := ReadUtf8(f.challenge), ReadUtf8(f.agent), ReadUtf8(f.key);
      var version, tenant, origin := ReadUtf8(f.version), ReadUtf8(f.tenant), ReadUtf8(f.origin);
      if challenge.None? || agent.None? || key.None? || version.None? || tenant.None? || origin.None? then None
      else Some(T.HandshakeFields(challenge.value, f.nonceRaw, agent.value, key.value, version.value, tenant.value, origin.value))
  }

  lemma HandshakeTextReads(h: T.HandshakeFields)
    requires T.BuildTranscript(T.Encoded(h)).Some? && |h.nonceRaw| == 32
    ensures ReadHandshakeText(T.BuildTranscript(T.Encoded(h)).value) ==
            Some(T.HandshakeFields(Scrub(h.challenge), h.nonceRaw, Scrub(h.agent), Scrub(h.key),
                                   Scrub(h.version), Scrub(h.tenant), Scrub(h.origin)))
    ensures T.WellFormed(h) ==> ReadHandshakeText(T.BuildTranscript(T.Encoded(h)).value) == Some(h)
  {
    HandshakeReads(T.Encoded(h));
    Utf8Reads(h.challenge);
    Utf8Reads(h.agent);
    Utf8Reads(h.key);
    Utf8Reads(h.version);
    Utf8Reads(h.tenant);
    Utf8Reads(h.origin);
    if T.WellFormed(h) { T.CleanIsScrubbed(h); }
    hide T.BuildTranscript, Utf8, ReadUtf8, Scrub, HasLone, ReadHandshake, AllFit;
  }

  // ---- pairing ----

  lemma PairingLayout(f: T.Pairing)
    requires AllInAlphabet(f.secret)
    ensures T.PairingParts(f) == Around([T.Ascii(T.PAIRING_DOMAIN_TAG), T.Ascii(f.secret)], f.publicRaw, [f.origin, f.version])
  {
    var head, tail := [T.Ascii(T.PAIRING_DOMAIN_TAG), T.Ascii(f.secret)], [f.origin, f.version];
    hide T.Ascii;
    PrefixesAre(head);
    PrefixesAre(tail);
  }

  /** A pairing transcript is written exactly for an accepted secret, a key of 32 bytes and
      fields that fit, and reads back as the secret itself, the key, the origin and the
      version. */
  lemma PairingReads(f: T.Pairing)
    ensures T.BuildPairingTranscript(f).Some? <==> Canonical32(f.secret) && |f.publicRaw| == 32 && AllFit([f.origin, f.version])
    ensures T.BuildPairingTranscript(f).Some? ==>
              var r := ReadPairing(T.BuildPairingTranscript(f).value);
              && r.Some? && Spells(r.value.0, f.secret)
              && r.value.1 == f.publicRaw && r.value.2 == f.origin && r.value.3 == f.version
  {
    hide Canonical32;
    if Canonical32(f.secret) && |f.publicRaw| == 32 {
      SecretIsAscii(f.secret);
      var head, tail := [T.Ascii(T.PAIRING_DOMAIN_TAG), T.Ascii(f.secret)], [f.origin, f.version];
      PairingLayout(f);
      AroundReads(head, f.publicRaw, tail);
      TagSpells(T.PAIRING_DOMAIN_TAG, head[0]);
      TagSpells(f.secret, head[1]);
      FitTwo(head[0], head[1]);
      hide T.Layout, T.PairingParts, T.Ascii, Around, ReadAround, AllFit, InAlphabet, AllInAlphabet;
    }
  }

  lemma SecretIsAscii(s: string)
    requires Canonical32(s)
    ensures |s| == 43 && AllInAlphabet(s) && forall i :: 0 <= i < |s| ==> s[i] < 128 as char
  {
  }

  /** And nothing else reads as a pairing of this secret. */
  lemma PairingReadsOnly(b: Bytes, secret: string)
    requires Canonical32(secret) && ReadPairing(b).Some?
    requires forall i :: 0 <= i < |secret| ==> secret[i] < 128 as char
    requires Spells(ReadPairing(b).value.0, secret)
    ensures var r := ReadPairing(b).value; T.BuildPairingTranscript(T.Pairing(secret, r.1, r.2, r.3)) == Some(b)
  {
    hide T.Layout, T.PairingParts, T.Ascii, Around, ReadAround, Canonical32, InAlphabet, AllInAlphabet;
    var r := ReadPairing(b).value;
    SecretIsAscii(secret);
    var (head, key, tail) := ReadAround(b, 2, 2).value;
    AroundWrites(b, 2, 2);
    TagSpells(T.PAIRING_DOMAIN_TAG, head[0]);
    TagSpells(secret, head[1]);
    PairingLayout(T.Pairing(secret, r.1, r.2, r.3));
    assert head == [T.Ascii(T.PAIRING_DOMAIN_TAG), T.Ascii(secret)];
    assert tail == [r.2, r.3];
  }

  /** The same of text. */
  lemma PairingTextReads(h: T.PairingFields)
    requires T.BuildPairingTranscript(T.EncodedPairing(h)).Some?
    ensures var r := ReadPairing(T.BuildPairingTranscript(T.EncodedPairing(h)).value);
            && r.Some? && Spells(r.value.0, h.secret) && r.value.1 == h.publicRaw
            && ReadUtf8(r.value.2) == Some(Scrub(h.origin)) && ReadUtf8(r.value.3) == Some(Scrub(h.version))
  {
    PairingReads(T.EncodedPairing(h));
    Utf8Reads(h.origin);
    Utf8Reads(h.version);
    hide T.BuildPairingTranscript, Utf8, ReadUtf8, Scrub, ReadPairing;
  }
}
