/** Unpadded base64url (section 5 of RFC 4648) and the gate that accepts only the
    canonical form of 32 bytes (section 3.5). */
module Base64Url {
  type Byte = b: int | 0 <= b < 256
  type Bytes = seq<Byte>
  type Sextet = v: int | 0 <= v < 64

  function Char(v: Sextet): char {
    if v < 26 then 'A' + v as char
    else if v < 52 then 'a' + (v - 26) as char
    else if v < 62 then '0' + (v - 52) as char
    else if v == 62 then '-'
    else '_'
  }

  predicate InAlphabet(c: char) {
    'A' <= c <= 'Z' || 'a' <= c <= 'z' || '0' <= c <= '9' || c == '-' || c == '_'
  }

  function Index(c: char): Sextet
    requires InAlphabet(c)
  {
    if 'A' <= c <= 'Z' then (c - 'A') as int
    else if 'a' <= c <= 'z' then (c - 'a') as int + 26
    else if '0' <= c <= '9' then (c - '0') as int + 52
    else if c == '-' then 62
    else 63
  }

  predicate AllInAlphabet(s: string) {
    forall i :: 0 <= i < |s| ==> InAlphabet(s[i])
  }

  // Three bytes and four sextets: the same 24 bits, cut in two ways.

  function S0(b0: Byte): Sextet { b0 / 4 }
  function S1(b0: Byte, b1: Byte): Sextet { b0 % 4 * 16 + b1 / 16 }
  function S2(b1: Byte, b2: Byte): Sextet { b1 % 16 * 4 + b2 / 64 }
  function S3(b2: Byte): Sextet { b2 % 64 }

  function B0(v0: Sextet, v1: Sextet): Byte { var n: int := v0; n * 4 + v1 / 16 }
  function B1(v1: Sextet, v2: Sextet): Byte { var n: int := v1; n % 16 * 16 + v2 / 4 }
  function B2(v2: Sextet, v3: Sextet): Byte { var n: int := v2; n % 4 * 64 + v3 }

  /** Three bytes make four characters; one or two left over make two or three, the
      spare bits zero. */
  function Encode(b: Bytes): string {
    if b == [] then []
    else if |b| == 1 then [Char(S0(b[0])), Char(S1(b[0], 0))]
    else if |b| == 2 then [Char(S0(b[0])), Char(S1(b[0], b[1])), Char(S2(b[1], 0))]
    else [Char(S0(b[0])), Char(S1(b[0], b[1])), Char(S2(b[1], b[2])), Char(S3(b[2]))] + Encode(b[3..])
  }

  /** The lenient decoder: spare bits, and a single character left over, are dropped. */
  function Decode(s: string): Bytes
    requires AllInAlphabet(s)
  {
    if |s| < 2 then []
    else
      var v0, v1 := Index(s[0]), Index(s[1]);
      if |s| == 2 then [B0(v0, v1)]
      else
        var v2 := Index(s[2]);
        if |s| == 3 then [B0(v0, v1), B1(v1, v2)]
        else [B0(v0, v1), B1(v1, v2), B2(v2, Index(s[3]))] + Decode(s[4..])
  }

  /** `validateB64u32`: the grammar, then decode and re-encode. */
  predicate Canonical32(s: string) {
    |s| == 43 && AllInAlphabet(s) && |Decode(s)| == 32 && Encode(Decode(s)) == s
  }

  lemma CharIndex(v: Sextet)
    ensures InAlphabet(Char(v)) && Index(Char(v)) == v
  {
  }

  lemma IndexChar(c: char)
    requires InAlphabet(c)
    ensures Char(Index(c)) == c
  {
  }

  lemma Cut(b0: Byte, b1: Byte, b2: Byte)
    ensures B0(S0(b0), S1(b0, b1)) == b0 && B1(S1(b0, b1), S2(b1, b2)) == b1 && B2(S2(b1, b2), S3(b2)) == b2
  {
    assert b1 / 16 < 16 && b2 / 64 < 4;
  }

  lemma Recut(v0: Sextet, v1: Sextet, v2: Sextet, v3: Sextet)
    ensures S0(B0(v0, v1)) == v0 && S1(B0(v0, v1), B1(v1, v2)) == v1
    ensures S2(B1(v1, v2), B2(v2, v3)) == v2 && S3(B2(v2, v3)) == v3
    ensures S1(B0(v0, v1), 0) == v1 <==> v1 % 16 == 0
    ensures S2(B1(v1, v2), 0) == v2 <==> v2 % 4 == 0
  {
    assert v1 / 16 < 4 && v2 / 4 < 16;
  }

  lemma {:induction false} EncodeShape(b: Bytes)
    ensures AllInAlphabet(Encode(b))
    ensures |Encode(b)| == |b| / 3 * 4 + (if |b| % 3 == 0 then 0 else |b| % 3 + 1)
  {
    hide Char, InAlphabet, S0, S1, S2, S3;
    if |b| > 0 { CharIndex(S0(b[0])); CharIndex(S1(b[0], if |b| == 1 then 0 else b[1])); }
    if |b| > 1 { CharIndex(S2(b[1], if |b| == 2 then 0 else b[2])); }
    if |b| > 2 {
      CharIndex(S3(b[2]));
      EncodeShape(b[3..]);
      assert |b[3..]| / 3 == |b| / 3 - 1 && |b[3..]| % 3 == |b| % 3;
    }
  }

  /** Decoding undoes encoding, for every number of bytes. */
  lemma {:induction false} DecodeEncode(b: Bytes)
    ensures AllInAlphabet(Encode(b)) && Decode(Encode(b)) == b
  {
    EncodeShape(b);
    hide Char, InAlphabet, Index, AllInAlphabet, S0, S1, S2, S3, B0, B1, B2;
    if |b| > 0 {
      var b1, b2 := if |b| == 1 then 0 else b[1], if |b| <= 2 then 0 else b[2];
      Cut(b[0], b1, b2);
      CharIndex(S0(b[0]));
      CharIndex(S1(b[0], b1));
      CharIndex(S2(b1, b2));
      CharIndex(S3(b2));
      if |b| > 2 {
        DecodeEncode(b[3..]);
        assert Encode(b)[4..] == Encode(b[3..]);
        assert b == [b[0], b[1], b[2]] + b[3..];
      }
    }
  }

  /** No single character left over, and the spare bits are zero. */
  predicate NoSpare(s: string)
    requires AllInAlphabet(s)
  {
    match |s| % 4
    case 0 => true
    case 1 => false
    case 2 => Index(s[|s| - 1]) % 16 == 0
    case _ => Index(s[|s| - 1]) % 4 == 0
  }

  /** Re-encoding gives the string back exactly when nothing was dropped. */
  lemma {:induction false} EncodeDecodeIff(s: string)
    requires AllInAlphabet(s)
    ensures Encode(Decode(s)) == s <==> NoSpare(s)
  {
    if |s| == 2 {
      TwoChars(s);
    } else if |s| == 3 {
      ThreeChars(s);
    } else if |s| >= 4 {
      EncodeDecodeIff(s[4..]);
      FourChars(s);
      SpareTail(s);
      hide Encode, Decode, NoSpare;
      assert s == s[..4] + s[4..];
      PrependIff(s[..4], Encode(Decode(s[4..])), s[4..]);
    }
  }

  lemma SpareTail(s: string)
    requires AllInAlphabet(s) && |s| >= 4
    ensures NoSpare(s) <==> NoSpare(s[4..])
  {
    hide Index, InAlphabet;
    var t := s[4..];
    assert |t| % 4 == |s| % 4;
    assert |t| > 0 ==> t[|t| - 1] == s[|s| - 1];
  }

  lemma PrependIff(u: string, x: string, y: string)
    ensures u + x == u + y <==> x == y
  {
    assert x == (u + x)[|u|..] && y == (u + y)[|u|..];
  }

  lemma TwoChars(s: string)
    requires AllInAlphabet(s) && |s| == 2
    ensures Encode(Decode(s)) == s <==> NoSpare(s)
  {
    hide Char, Index, InAlphabet, S0, S1, S2, S3, B0, B1, B2;
    var v0, v1 := Index(s[0]), Index(s[1]);
    Chars(s, 2);
    Recut(v0, v1, 0, 0);
    CharIndex(S1(B0(v0, v1), 0));
    assert Decode(s) == [B0(v0, v1)];
    assert Encode([B0(v0, v1)]) == [s[0], Char(S1(B0(v0, v1), 0))];
    assert s == [s[0], s[1]];
  }

  lemma ThreeChars(s: string)
    requires AllInAlphabet(s) && |s| == 3
    ensures Encode(Decode(s)) == s <==> NoSpare(s)
  {
    hide Char, Index, InAlphabet, S0, S1, S2, S3, B0, B1, B2;
    var v0, v1, v2 := Index(s[0]), Index(s[1]), Index(s[2]);
    Chars(s, 3);
    Recut(v0, v1, v2, 0);
    CharIndex(S2(B1(v1, v2), 0));
    assert Decode(s) == [B0(v0, v1), B1(v1, v2)];
    assert Encode([B0(v0, v1), B1(v1, v2)]) == [s[0], s[1], Char(S2(B1(v1, v2), 0))];
    assert s == [s[0], s[1], s[2]];
  }

  lemma EncodeThree(b: Bytes, rest: Bytes)
    requires |b| == 3
    ensures Encode(b + rest) == [Char(S0(b[0])), Char(S1(b[0], b[1])), Char(S2(b[1], b[2])), Char(S3(b[2]))] + Encode(rest)
  {
    assert (b + rest)[3..] == rest;
  }

  lemma DecodeFour(s: string) returns (b: Bytes)
    requires AllInAlphabet(s) && |s| >= 4
    ensures AllInAlphabet(s[4..]) && Decode(s) == b + Decode(s[4..]) && |b| == 3
    ensures Char(S0(b[0])) == s[0] && Char(S1(b[0], b[1])) == s[1]
    ensures Char(S2(b[1], b[2])) == s[2] && Char(S3(b[2])) == s[3]
  {
    hide Char, InAlphabet, Index, S0, S1, S2, S3, B0, B1, B2;
    Chars(s, 4);
    var v0, v1, v2, v3 := Index(s[0]), Index(s[1]), Index(s[2]), Index(s[3]);
    b := [B0(v0, v1), B1(v1, v2), B2(v2, v3)];
    Recut(v0, v1, v2, v3);
  }

  lemma FourChars(s: string)
    requires AllInAlphabet(s) && |s| >= 4
    ensures Encode(Decode(s)) == s[..4] + Encode(Decode(s[4..]))
  {
    hide *;
    var b := DecodeFour(s);
    EncodeThree(b, Decode(s[4..]));
    assert s[..4] == [s[0], s[1], s[2], s[3]];
  }

  lemma Chars(s: string, n: nat)
    requires AllInAlphabet(s) && n <= |s|
    ensures forall i :: 0 <= i < n ==> InAlphabet(s[i]) && Char(Index(s[i])) == s[i]
  {
    forall i | 0 <= i < n ensures Char(Index(s[i])) == s[i] { IndexChar(s[i]); }
  }

  lemma {:induction false} DecodeLength(s: string)
    requires AllInAlphabet(s)
    ensures |Decode(s)| == |s| / 4 * 3 + (if |s| % 4 == 0 then 0 else |s| % 4 - 1)
  {
    if |s| >= 4 {
      DecodeLength(s[4..]);
      assert |s[4..]| / 4 == |s| / 4 - 1 && |s[4..]| % 4 == |s| % 4;
    }
  }

  // ---- the gate ----

  /** The gate says: 43 characters of the alphabet, the last with its two spare bits
      zero. */
  lemma Canonical32Iff(s: string)
    ensures Canonical32(s) <==> |s| == 43 && AllInAlphabet(s) && Index(s[42]) % 4 == 0
  {
    hide Encode, Decode, Index, InAlphabet, AllInAlphabet;
    if |s| == 43 && AllInAlphabet(s) {
      DecodeLength(s);
      EncodeDecodeIff(s);
    }
  }

  /** Accepted strings and 32-byte values are in bijection: every value has an accepted
      form, and an accepted string is the form of its own value and of no other. */
  lemma Canonical32Bijection(b: Bytes, s: string)
    requires |b| == 32
    ensures Canonical32(Encode(b)) && Decode(Encode(b)) == b
    ensures Canonical32(s) ==> |Decode(s)| == 32 && Encode(Decode(s)) == s
    ensures Canonical32(s) && Decode(s) == b <==> s == Encode(b)
  {
    EncodeShape(b);
    DecodeEncode(b);
  }

  /** A key fingerprint is always in the accepted form, whatever the 32-byte hash. */
  lemma FingerprintIsCanonical(sha: Bytes -> Bytes, publicRaw: Bytes)
    requires |sha(publicRaw)| == 32
    ensures Canonical32(Encode(sha(publicRaw)))
  {
    EncodeShape(sha(publicRaw));
    DecodeEncode(sha(publicRaw));
  }

  // ---- against the standard ----

  /** Table 2 of RFC 4648. */
  lemma AlphabetTable()
    ensures [Char(0), Char(1), Char(2), Char(3), Char(4), Char(5), Char(6), Char(7), Char(8), Char(9), Char(10), Char(11), Char(12), Char(13), Char(14), Char(15)]
            == "ABCDEFGHIJKLMNOP"
    ensures [Char(16), Char(17), Char(18), Char(19), Char(20), Char(21), Char(22), Char(23), Char(24), Char(25), Char(26), Char(27), Char(28), Char(29), Char(30), Char(31)]
            == "QRSTUVWXYZabcdef"
    ensures [Char(32), Char(33), Char(34), Char(35), Char(36), Char(37), Char(38), Char(39), Char(40), Char(41), Char(42), Char(43), Char(44), Char(45), Char(46), Char(47)]
            == "ghijklmnopqrstuv"
    ensures [Char(48), Char(49), Char(50), Char(51), Char(52), Char(53), Char(54), Char(55), Char(56), Char(57), Char(58), Char(59), Char(60), Char(61), Char(62), Char(63)]
            == "wxyz0123456789-_"
  {
  }

  /** The number that characters spell, six bits each, most significant first. */
  function Spelled(s: string): int
    requires AllInAlphabet(s)
  {
    if s == [] then 0 else Spelled(s[..|s| - 1]) * 0x40 + Index(s[|s| - 1]) as int
  }

  lemma FirstGroup(b: Bytes)
    requires b != []
    ensures AllInAlphabet(Encode(b)) && |Encode(b)| >= 2
    ensures |b| == 1 ==> b[0] as int * 16 == Spelled(Encode(b))
    ensures |b| == 2 ==> (b[0] as int * 0x100 + b[1] as int) * 4 == Spelled(Encode(b))
    ensures |b| >= 3 ==> |Encode(b)| >= 4 && b[0] as int * 0x1_0000 + b[1] as int * 0x100 + b[2] as int == Spelled(Encode(b)[..4])
  {
    EncodeShape(b);
    hide Char, InAlphabet, Index, S0, S1, S2, S3, Spelled;
    var b1, b2 := if |b| > 1 then b[1] else 0, if |b| > 2 then b[2] else 0;
    CharIndex(S0(b[0]));
    CharIndex(S1(b[0], b1));
    CharIndex(S2(b1, b2));
    CharIndex(S3(b2));
    SameBits(b[0], b1, b2);
    SpelledFour(if |b| < 3 then Encode(b) else Encode(b)[..4]);
  }

  /** Section 4 of RFC 4648: three bytes make one number of 24 bits, most significant
      first, and that number is spelled by four characters of six bits each. One or two
      bytes left over are filled up with zero bits, as few as make whole characters. */
  lemma {:induction false} EncodeGroups(b: Bytes, k: nat)
    requires 3 * k <= |b|
    ensures AllInAlphabet(Encode(b)) && 4 * k <= |Encode(b)|
    ensures |b| - 3 * k == 0 ==> |Encode(b)| == 4 * k
    ensures |b| - 3 * k == 1 ==> |Encode(b)| == 4 * k + 2 && b[3 * k] as int * 16 == Spelled(Encode(b)[4 * k..])
    ensures |b| - 3 * k == 2 ==>
              |Encode(b)| == 4 * k + 3 && (b[3 * k] as int * 0x100 + b[3 * k + 1] as int) * 4 == Spelled(Encode(b)[4 * k..])
    ensures |b| - 3 * k >= 3 ==>
              && |Encode(b)| >= 4 * k + 4
              && b[3 * k] as int * 0x1_0000 + b[3 * k + 1] as int * 0x100 + b[3 * k + 2] as int == Spelled(Encode(b)[4 * k..4 * k + 4])
  {
    hide *;
    EncodeShape(b);
    if k > 0 {
      EncodeTail(b);
      EncodeGroups(b[3..], k - 1);
      LaterGroup(Encode(b), k);
    } else if b != [] {
      FirstGroup(b);
      WholeText(Encode(b));
    }
  }

  lemma EncodeTail(b: Bytes)
    requires |b| >= 3
    ensures |Encode(b)| >= 4 && Encode(b)[4..] == Encode(b[3..])
  {
  }

  lemma LaterGroup(s: string, k: nat)
    requires 0 < k && 4 * k <= |s|
    ensures s[4..][4 * (k - 1)..] == s[4 * k..]
    ensures 4 * k + 4 <= |s| ==> s[4..][4 * (k - 1)..4 * (k - 1) + 4] == s[4 * k..4 * k + 4]
  {
  }

  lemma WholeText(s: string)
    ensures s[0..] == s && (|s| >= 4 ==> s[0..4] == s[..4])
  {
  }

  lemma SpelledFour(s: string)
    requires AllInAlphabet(s) && 2 <= |s| <= 4
    ensures |s| == 2 ==> Spelled(s) == Index(s[0]) as int * 0x40 + Index(s[1]) as int
    ensures |s| == 3 ==> Spelled(s) == Index(s[0]) as int * 0x1000 + Index(s[1]) as int * 0x40 + Index(s[2]) as int
    ensures |s| == 4 ==>
              Spelled(s) == Index(s[0]) as int * 0x4_0000 + Index(s[1]) as int * 0x1000 + Index(s[2]) as int * 0x40 + Index(s[3]) as int
  {
    hide Index, InAlphabet;
    assert s[..1][..0] == [] && s[..2][..1] == s[..1];
    assert Spelled(s[..1]) == Index(s[0]) as int && Spelled(s[..2]) == Spelled(s[..1]) * 0x40 + Index(s[1]) as int;
    if |s| == 2 { assert s[..2] == s; }
    if |s| >= 3 { assert s[..3][..2] == s[..2] && Spelled(s[..3]) == Spelled(s[..2]) * 0x40 + Index(s[2]) as int; }
    if |s| == 3 { assert s[..3] == s; }
  }

  lemma SameBits(b0: Byte, b1: Byte, b2: Byte)
    ensures b0 as int * 0x1_0000 + b1 as int * 0x100 + b2 as int
            == S0(b0) as int * 0x4_0000 + S1(b0, b1) as int * 0x1000 + S2(b1, b2) as int * 0x40 + S3(b2) as int
    ensures (b0 as int * 0x100 + b1 as int) * 4 == S0(b0) as int * 0x1000 + S1(b0, b1) as int * 0x40 + S2(b1, 0) as int
    ensures b0 as int * 16 == S0(b0) as int * 0x40 + S1(b0, 0) as int
  {
  }
}
