/** Canonical texts stand for values one to one, so their hashes identify results. */
module CanonicalDigests {
  import opened Options
  import opened CanonicalText
  import opened CanonicalJson
  import opened CanonicalTheorems
  import opened CanonicalReading
  import opened Base64Url
  import opened Utf8Text

  /** Canonicalization writes valid JSON for the very value that was meant. */
  lemma CanonicalParsesBack(v: Json)
    requires Valid(v) && Clean(v)
    ensures Jcs(v).Ok? && Parse(Jcs(v).value) == Some(Mean(v))
  {
    SucceedsIffClean(v);
    ValueReads(v, []);
    assert Jcs(v).value + [] == Jcs(v).value;
  }

  /** Equal canonical texts mean equal values, and the other way round. */
  lemma CanonicalIffSameMeaning(v: Json, w: Json)
    requires Valid(v) && Valid(w) && Clean(v) && Clean(w)
    ensures Jcs(v).Ok? && Jcs(w).Ok?
    ensures Jcs(v).value == Jcs(w).value <==> Mean(v) == Mean(w)
  {
    SucceedsIffClean(v);
    SucceedsIffClean(w);
    CanonicalParsesBack(v);
    CanonicalParsesBack(w);
    if Mean(v) == Mean(w) { SameMeaningSameText(v, w); }
  }

  /** The order in which keys were inserted, and fields that are undefined, never
      matter: not to the text, and not to which error is thrown. */
  lemma KeyOrderIsIrrelevant(a: seq<Field>, b: seq<Field>)
    requires DistinctKeys(a) && DistinctKeys(b)
    requires forall f: Field :: !f.val.JUndefined? ==> (f in a <==> f in b)
    ensures Jcs(JObj(a)) == Jcs(JObj(b))
  {
    WrittenUnique(a, b);
  }

  // ---- the result digest ----

  /** The names of the two envelope fields that every send stamps afresh. */
  const ID: Text := [0x69, 0x64]
  const TS: Text := [0x74, 0x73]

  function WithoutEnvelope(fields: seq<Field>): (r: seq<Field>)
    ensures forall f :: f in r <==> f in fields && f.key != ID && f.key != TS
  {
    if fields == [] then []
    else if fields[0].key == ID || fields[0].key == TS then WithoutEnvelope(fields[1..])
    else [fields[0]] + WithoutEnvelope(fields[1..])
  }

  /** `hash` stands for the base64url form of SHA-256. */
  function ResultDigest<D>(hash: Text -> D, message: seq<Field>): Result<D> {
    match Jcs(JObj(WithoutEnvelope(message)))
    case Ok(text) => Ok(hash(text))
    case Err(e) => Err(e)
  }

  lemma {:induction false} WithoutEnvelopeDistinct(fields: seq<Field>)
    requires DistinctKeys(fields)
    ensures DistinctKeys(WithoutEnvelope(fields))
  {
    if fields != [] {
      WithoutEnvelopeDistinct(fields[1..]);
      var r := WithoutEnvelope(fields[1..]);
      forall i | 0 <= i < |r| ensures r[i].key != fields[0].key { assert r[i] in fields[1..]; }
    }
  }

  /** Fresh `id` and `ts`, in any position, never change the digest. */
  lemma DigestIgnoresEnvelope<D>(hash: Text -> D, m: seq<Field>, n: seq<Field>)
    requires DistinctKeys(m) && DistinctKeys(n)
    requires forall f: Field :: f.key != ID && f.key != TS && !f.val.JUndefined? ==> (f in m <==> f in n)
    ensures ResultDigest(hash, m) == ResultDigest(hash, n)
  {
    WithoutEnvelopeDistinct(m);
    WithoutEnvelopeDistinct(n);
    KeyOrderIsIrrelevant(WithoutEnvelope(m), WithoutEnvelope(n));
  }

  /** Unless the hash collides on these two texts, equal digests mean equal payloads,
      and conversely. */
  lemma DigestIdentifiesPayload<D>(hash: Text -> D, m: seq<Field>, n: seq<Field>)
    requires Valid(JObj(WithoutEnvelope(m))) && Clean(JObj(WithoutEnvelope(m)))
    requires Valid(JObj(WithoutEnvelope(n))) && Clean(JObj(WithoutEnvelope(n)))
    requires forall s, t ::
               Jcs(JObj(WithoutEnvelope(m))) == Ok(s) && Jcs(JObj(WithoutEnvelope(n))) == Ok(t) && hash(s) == hash(t)
               ==> s == t
    ensures ResultDigest(hash, m).Ok? && ResultDigest(hash, n).Ok?
    ensures ResultDigest(hash, m) == ResultDigest(hash, n) <==>
            MeanFields(WithoutEnvelope(m)) == MeanFields(WithoutEnvelope(n))
  {
    CanonicalIffSameMeaning(JObj(WithoutEnvelope(m)), JObj(WithoutEnvelope(n)));
  }

  // ---- the bytes that are hashed ----

  /** The hash is of the UTF-8 bytes of the canonical text. */
  function ByteDigest<D>(hash: Bytes -> D, message: seq<Field>): Result<D> {
    ResultDigest(t => hash(Utf8(t)), message)
  }

  /** Unless the hash collides on these two byte strings, equal digests mean equal payloads,
      and conversely: a canonical text has no lone surrogate, so its bytes determine it. */
  lemma BytesIdentifyPayload<D>(hash: Bytes -> D, m: seq<Field>, n: seq<Field>)
    requires Valid(JObj(WithoutEnvelope(m))) && Clean(JObj(WithoutEnvelope(m)))
    requires Valid(JObj(WithoutEnvelope(n))) && Clean(JObj(WithoutEnvelope(n)))
    requires forall s, t ::
               Jcs(JObj(WithoutEnvelope(m))) == Ok(s) && Jcs(JObj(WithoutEnvelope(n))) == Ok(t) && hash(Utf8(s)) == hash(Utf8(t))
               ==> Utf8(s) == Utf8(t)
    ensures ByteDigest(hash, m).Ok? && ByteDigest(hash, n).Ok?
    ensures ByteDigest(hash, m) == ByteDigest(hash, n) <==>
            MeanFields(WithoutEnvelope(m)) == MeanFields(WithoutEnvelope(n))
  {
    var v, w := JObj(WithoutEnvelope(m)), JObj(WithoutEnvelope(n));
    SucceedsIffClean(v);
    SucceedsIffClean(w);
    CanonicalIsEncodable(v);
    CanonicalIsEncodable(w);
    hide Jcs, Clean, Valid, WithoutEnvelope, MeanFields, Utf8, HasLone;
    Utf8Injective(Jcs(v).value, Jcs(w).value);
    DigestIdentifiesPayload(t => hash(Utf8(t)), m, n);
  }
}
