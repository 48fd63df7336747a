/** The digest of a `job.result` message, over its JSON fields: it is a function of the
    body alone, and identifies it. */
module JobDigests {
  import opened Options
  import opened JobTypes
  import opened CanonicalText
  import opened CanonicalJson
  import opened CanonicalTheorems
  import R = CanonicalReading
  import opened CanonicalDigests
  import opened Utf8Text

  /** How identifiers and error kinds are written, and the stamp of a send. Both writings
      are injective and free of lone surrogates. */
  datatype Writing = Writing(id: nat -> Text, kind: string -> Text, stamp: nat -> (Text, int))

  ghost predicate Faithful(w: Writing) {
    && (forall m, n :: w.id(m) == w.id(n) ==> m == n) && (forall n :: !HasLone(w.id(n)))
    && (forall s, t :: w.kind(s) == w.kind(t) ==> s == t) && (forall s :: !HasLone(w.kind(s)))
  }

  function StatusText(s: FinalStatus): Text {
    match s
    case FinalSuccess => Ascii("success")
    case FinalError => Ascii("error")
    case FinalCancelled => Ascii("cancelled")
  }

  /** The fields that every send shares. An absent field is undefined. */
  function BodyFields(w: Writing, b: ResultBody): seq<Field> {
    [Field(Ascii("type"), JStr(Ascii("job.result"))),
     Field(Ascii("job_id"), JStr(w.id(b.job))),
     Field(Ascii("attempt_id"), JStr(w.id(b.attempt))),
     Field(Ascii("lease_id"), JStr(w.id(b.lease))),
     Field(Ascii("final_status"), JStr(StatusText(b.finalStatus))),
     Field(Ascii("exit_code"), if b.exitCode.Some? then JNum(b.exitCode.value) else JUndefined),
     Field(Ascii("error_kind"), if b.errorKind.Some? then JStr(w.kind(b.errorKind.value)) else JUndefined),
     Field(Ascii("duration_ms"), JNum(b.duration)),
     Field(Ascii("stats"), Stats(b))]
  }

  function MessageFields(w: Writing, m: ResultMsg): seq<Field> {
    [Field(ID, JStr(w.stamp(m.envelope).0)), Field(TS, JNum(w.stamp(m.envelope).1))] + BodyFields(w, m.body)
  }

  // ---- the keys ----

  /** The length of a key and its first two units, which tell the keys apart. */
  function Mark(k: Text): (nat, Text) {
    (|k|, if |k| < 2 then k else k[..2])
  }

  lemma MarkOf(s: string, a: Unit, b: Unit)
    requires |s| >= 2 && s[0] as int % 0x80 == a && s[1] as int % 0x80 == b
    ensures Mark(Ascii(s)) == (|s|, [a, b])
  {
    hide Ascii;
    assert Ascii(s)[..2] == [a, b];
  }

  lemma Marks()
    ensures Mark(ID) == (2, [0x69, 0x64]) && Mark(TS) == (2, [0x74, 0x73])
    ensures Mark(Ascii("type")) == (4, [0x74, 0x79]) && Mark(Ascii("job_id")) == (6, [0x6A, 0x6F])
    ensures Mark(Ascii("attempt_id")) == (10, [0x61, 0x74]) && Mark(Ascii("lease_id")) == (8, [0x6C, 0x65])
    ensures Mark(Ascii("final_status")) == (12, [0x66, 0x69]) && Mark(Ascii("exit_code")) == (9, [0x65, 0x78])
    ensures Mark(Ascii("error_kind")) == (10, [0x65, 0x72]) && Mark(Ascii("duration_ms")) == (11, [0x64, 0x75])
    ensures Mark(Ascii("stats")) == (5, [0x73, 0x74])
  {
    assert ID[..2] == ID && TS[..2] == TS;
    FirstMarks();
    LastMarks();
    hide Mark, Ascii;
  }

  lemma FirstMarks()
    ensures Mark(Ascii("type")) == (4, [0x74, 0x79]) && Mark(Ascii("job_id")) == (6, [0x6A, 0x6F])
    ensures Mark(Ascii("attempt_id")) == (10, [0x61, 0x74]) && Mark(Ascii("lease_id")) == (8, [0x6C, 0x65])
  {
    hide Mark, Ascii;
    MarkOf("type", 0x74, 0x79);
    MarkOf("job_id", 0x6A, 0x6F);
    MarkOf("attempt_id", 0x61, 0x74);
    MarkOf("lease_id", 0x6C, 0x65);
  }

  lemma LastMarks()
    ensures Mark(Ascii("final_status")) == (12, [0x66, 0x69]) && Mark(Ascii("exit_code")) == (9, [0x65, 0x78])
    ensures Mark(Ascii("error_kind")) == (10, [0x65, 0x72]) && Mark(Ascii("duration_ms")) == (11, [0x64, 0x75])
    ensures Mark(Ascii("stats")) == (5, [0x73, 0x74])
  {
    hide Mark, Ascii;
    MarkOf("final_status", 0x66, 0x69);
    MarkOf("exit_code", 0x65, 0x78);
    MarkOf("error_kind", 0x65, 0x72);
    MarkOf("duration_ms", 0x64, 0x75);
    MarkOf("stats", 0x73, 0x74);
  }

  lemma KeysDistinct(w: Writing, m: ResultMsg)
    ensures DistinctKeys(MessageFields(w, m)) && DistinctKeys(BodyFields(w, m.body))
    ensures forall i :: 0 <= i < |BodyFields(w, m.body)| ==> BodyFields(w, m.body)[i].key != ID && BodyFields(w, m.body)[i].key != TS
  {
    Marks();
    var f := MessageFields(w, m);
    hide Ascii;
    forall i, j | 0 <= i < j < |f| ensures f[i].key != f[j].key {
      assert Mark(f[i].key) != Mark(f[j].key);
    }
    assert forall i :: 0 <= i < |BodyFields(w, m.body)| ==> BodyFields(w, m.body)[i] == f[i + 2];
    hide Mark;
  }

  // ---- the digest is of the body ----

  /** What every send of a result digests to: `id` and `ts` do not count. */
  lemma DigestIsOfBody<D>(w: Writing, hash: Text -> D, m: ResultMsg, n: ResultMsg)
    requires m.body == n.body
    ensures ResultDigest(hash, MessageFields(w, m)) == ResultDigest(hash, MessageFields(w, n))
  {
    KeysDistinct(w, m);
    KeysDistinct(w, n);
    hide BodyFields;
    forall f: Field ensures f.key != ID && f.key != TS ==> (f in MessageFields(w, m) <==> f in MessageFields(w, n)) { }
    DigestIgnoresEnvelope(hash, MessageFields(w, m), MessageFields(w, n));
  }

  lemma BodyIsWithoutEnvelope(w: Writing, m: ResultMsg)
    ensures WithoutEnvelope(MessageFields(w, m)) == BodyFields(w, m.body)
  {
    KeysDistinct(w, m);
    hide BodyFields;
    var b := BodyFields(w, m.body);
    var f := MessageFields(w, m);
    KeptWhole(b);
    assert f[1..][1..] == b && f[1..][0].key == TS;
    assert WithoutEnvelope(f[1..]) == WithoutEnvelope(f[1..][1..]);
  }

  lemma {:induction false} KeptWhole(fields: seq<Field>)
    requires forall i :: 0 <= i < |fields| ==> fields[i].key != ID && fields[i].key != TS
    ensures WithoutEnvelope(fields) == fields
  {
    if fields != [] {
      KeptWhole(fields[1..]);
      assert fields == [fields[0]] + fields[1..];
    }
  }

  lemma AsciiPaired(s: string)
    ensures !HasLone(Ascii(s))
  {
    hide Ascii;
  }

  lemma BodyClean(w: Writing, b: ResultBody)
    requires Faithful(w)
    ensures Valid(JObj(BodyFields(w, b))) && Clean(JObj(BodyFields(w, b)))
  {
    hide Ascii, HasLone, DistinctKeys;
    KeysDistinct(w, ResultMsg(0, b));
    AsciiPaired("job.result");
    AsciiPaired("success");
    AsciiPaired("error");
    AsciiPaired("cancelled");
    StatsClean(b);
  }

  function Stats(b: ResultBody): Json {
    JObj([Field(Ascii("event_count"), JNum(b.eventCount)), Field(Ascii("bytes"), JNum(b.bytes))])
  }

  lemma StatsClean(b: ResultBody)
    ensures Valid(Stats(b)) && Clean(Stats(b))
  {
    hide Ascii;
    assert |Ascii("event_count")| == 11 && |Ascii("bytes")| == 5;
  }

  lemma SameField(f: seq<Field>, g: seq<Field>, i: nat)
    requires DistinctKeys(f) && DistinctKeys(g) && MeanFields(f) == MeanFields(g)
    requires i < |f| && i < |g| && f[i].key == g[i].key
    ensures f[i].val.JUndefined? <==> g[i].val.JUndefined?
    ensures !f[i].val.JUndefined? ==> Mean(f[i].val) == Mean(g[i].val)
  {
    hide MeanFields, Mean;
    if !f[i].val.JUndefined? {
      MeanHas(f, i);
      var j := MeanFrom(g, f[i].key);
      MeanHas(g, j);
    }
    if !g[i].val.JUndefined? {
      MeanHas(g, i);
      var j := MeanFrom(f, g[i].key);
    }
  }

  lemma StatsMean(a: ResultBody, b: ResultBody)
    requires Mean(Stats(a)) == Mean(Stats(b))
    ensures a.eventCount == b.eventCount && a.bytes == b.bytes
  {
    StatsClean(a);
    StatsClean(b);
    hide Ascii;
    SameField(Stats(a).fields, Stats(b).fields, 0);
    SameField(Stats(a).fields, Stats(b).fields, 1);
  }

  lemma StatusTexts(a: FinalStatus, b: FinalStatus)
    requires StatusText(a) == StatusText(b)
    ensures a == b
  {
    hide Ascii;
  }

  /** The two bodies write the same field at the same place. */
  lemma SameAt(w: Writing, a: ResultBody, b: ResultBody, i: nat)
    requires i < 9 && MeanFields(BodyFields(w, a)) == MeanFields(BodyFields(w, b))
    ensures var u, v := BodyFields(w, a)[i].val, BodyFields(w, b)[i].val;
            (u.JUndefined? <==> v.JUndefined?) && (!u.JUndefined? ==> Mean(u) == Mean(v))
  {
    hide Ascii;
    KeysDistinct(w, ResultMsg(0, a));
    KeysDistinct(w, ResultMsg(0, b));
    assert BodyFields(w, a)[i].key == BodyFields(w, b)[i].key;
    hide BodyFields, MeanFields, DistinctKeys, Mean;
    SameField(BodyFields(w, a), BodyFields(w, b), i);
  }

  lemma SameIds(w: Writing, a: ResultBody, b: ResultBody)
    requires Faithful(w) && MeanFields(BodyFields(w, a)) == MeanFields(BodyFields(w, b))
    ensures a.job == b.job && a.attempt == b.attempt && a.lease == b.lease
  {
    hide Ascii, MeanFields, Stats, StatusText;
    SameAt(w, a, b, 1);
    SameAt(w, a, b, 2);
    SameAt(w, a, b, 3);
  }

  lemma SameOutcome(w: Writing, a: ResultBody, b: ResultBody)
    requires Faithful(w) && MeanFields(BodyFields(w, a)) == MeanFields(BodyFields(w, b))
    ensures a.finalStatus == b.finalStatus && a.exitCode == b.exitCode && a.errorKind == b.errorKind
  {
    hide Ascii, MeanFields, Stats, StatusText;
    SameAt(w, a, b, 4);
    SameAt(w, a, b, 5);
    SameAt(w, a, b, 6);
    StatusTexts(a.finalStatus, b.finalStatus);
  }

  lemma SameTotals(w: Writing, a: ResultBody, b: ResultBody)
    requires MeanFields(BodyFields(w, a)) == MeanFields(BodyFields(w, b))
    ensures a.duration == b.duration && a.eventCount == b.eventCount && a.bytes == b.bytes
  {
    hide Ascii, MeanFields, StatusText;
    SameAt(w, a, b, 7);
    SameAt(w, a, b, 8);
    hide Stats;
    StatsMean(a, b);
  }

  lemma BodyMean(w: Writing, a: ResultBody, b: ResultBody)
    requires Faithful(w) && MeanFields(BodyFields(w, a)) == MeanFields(BodyFields(w, b))
    ensures a == b
  {
    hide BodyFields, MeanFields, Faithful;
    SameIds(w, a, b);
    SameOutcome(w, a, b);
    SameTotals(w, a, b);
  }

  /** The digest that the job protocol keeps as a function of the body. */
  function BodyDigest(w: Writing, hash: Text -> Digest, b: ResultBody): Digest {
    var r := ResultDigest(hash, MessageFields(w, ResultMsg(0, b)));
    if r.Ok? then r.value else ""
  }

  /** It is the digest of every message that carries the body, and never an error. */
  lemma MessageDigest(w: Writing, hash: Text -> Digest, m: ResultMsg)
    requires Faithful(w)
    ensures ResultDigest(hash, MessageFields(w, m)) == Ok(BodyDigest(w, hash, m.body))
  {
    var n := ResultMsg(0, m.body);
    DigestIsOfBody(w, hash, m, n);
    BodyIsWithoutEnvelope(w, n);
    BodyClean(w, m.body);
    SucceedsIffClean(JObj(BodyFields(w, m.body)));
    hide MessageFields, BodyFields, WithoutEnvelope, Jcs, Clean, Valid, Faithful;
  }

  /** Unless the hash collides on their two texts, bodies with one digest are equal. */
  lemma DigestIdentifiesBody(w: Writing, hash: Text -> Digest, a: ResultBody, b: ResultBody)
    requires Faithful(w)
    requires forall s, t ::
               Jcs(JObj(BodyFields(w, a))) == Ok(s) && Jcs(JObj(BodyFields(w, b))) == Ok(t) && hash(s) == hash(t) ==> s == t
    ensures BodyDigest(w, hash, a) == BodyDigest(w, hash, b) <==> a == b
  {
    var m, n := ResultMsg(0, a), ResultMsg(0, b);
    MessageDigest(w, hash, m);
    MessageDigest(w, hash, n);
    BodyIsWithoutEnvelope(w, m);
    BodyIsWithoutEnvelope(w, n);
    BodyClean(w, a);
    BodyClean(w, b);
    hide MessageFields, BodyFields, WithoutEnvelope, Jcs, Clean, Valid, BodyDigest, ResultDigest, MeanFields, Faithful;
    DigestIdentifiesPayload(hash, MessageFields(w, m), MessageFields(w, n));
    if BodyDigest(w, hash, a) == BodyDigest(w, hash, b) { BodyMean(w, a, b); }
  }

  // ---- what is hashed ----

  ghost predicate Says(m: map<Text, Value>, k: string, v: Value) {
    Ascii(k) in m && m[Ascii(k)] == v
  }

  ghost predicate SaysIf(m: map<Text, Value>, k: string, v: Option<Value>) {
    if v.Some? then Says(m, k, v.value) else Ascii(k) !in m
  }

  /** The members of a result, and no others. */
  ghost predicate SaysResult(w: Writing, b: ResultBody, m: map<Text, Value>) {
    && Says(m, "type", VStr(Ascii("job.result")))
    && Says(m, "job_id", VStr(w.id(b.job)))
    && Says(m, "attempt_id", VStr(w.id(b.attempt)))
    && Says(m, "lease_id", VStr(w.id(b.lease)))
    && Says(m, "final_status", VStr(Ascii(match b.finalStatus
                                          case FinalSuccess => "success"
                                          case FinalError => "error"
                                          case FinalCancelled => "cancelled")))
    && SaysIf(m, "exit_code", if b.exitCode.Some? then Some(VNum(b.exitCode.value)) else None)
    && SaysIf(m, "error_kind", if b.errorKind.Some? then Some(VStr(w.kind(b.errorKind.value))) else None)
    && Says(m, "duration_ms", VNum(b.duration))
    && Ascii("stats") in m && m[Ascii("stats")].VObj? && SaysTotals(b, m[Ascii("stats")].members)
    && |m| == 7 + (if b.exitCode.Some? then 1 else 0) + (if b.errorKind.Some? then 1 else 0)
  }

  ghost predicate SaysTotals(b: ResultBody, m: map<Text, Value>) {
    Says(m, "event_count", VNum(b.eventCount)) && Says(m, "bytes", VNum(b.bytes)) && |m| == 2
  }

  /** How many of the fields are defined. */
  function DefinedCount(fields: seq<Field>): nat {
    if fields == [] then 0 else (if fields[0].val.JUndefined? then 0 else 1) + DefinedCount(fields[1..])
  }

  lemma {:induction false} MeanSize(fields: seq<Field>)
    requires DistinctKeys(fields)
    ensures |MeanFields(fields)| == DefinedCount(fields)
  {
    hide Mean;
    if fields != [] {
      var m := MeanFields(fields[1..]);
      MeanSize(fields[1..]);
      if !fields[0].val.JUndefined? {
        if fields[0].key in m { var i := MeanFrom(fields[1..], fields[0].key); }
        assert m[fields[0].key := Mean(fields[0].val)].Keys == m.Keys + {fields[0].key};
        MapSize(m);
        MapSize(m[fields[0].key := Mean(fields[0].val)]);
      }
    }
  }

  lemma MapSize(m: map<Text, Value>)
    ensures |m| == |m.Keys|
  {
  }

  lemma FieldSays(fields: seq<Field>, i: nat, k: string, v: Value)
    requires DistinctKeys(fields) && i < |fields| && fields[i].key == Ascii(k)
    requires !fields[i].val.JUndefined? && Mean(fields[i].val) == v
    ensures Says(MeanFields(fields), k, v)
  {
    MeanHas(fields, i);
  }

  lemma FieldSaysIf(fields: seq<Field>, i: nat, k: string, v: Option<Value>)
    requires DistinctKeys(fields) && i < |fields| && fields[i].key == Ascii(k)
    requires if v.Some? then !fields[i].val.JUndefined? && Mean(fields[i].val) == v.value else fields[i].val.JUndefined?
    ensures SaysIf(MeanFields(fields), k, v)
  {
    hide MeanFields, Mean;
    if v.Some? {
      MeanHas(fields, i);
    } else if Ascii(k) in MeanFields(fields) {
      var j := MeanFrom(fields, Ascii(k));
    }
  }

  lemma StatsSay(b: ResultBody)
    ensures Mean(Stats(b)).VObj? && SaysTotals(b, Mean(Stats(b)).members)
  {
    StatsClean(b);
    hide Ascii;
    var f := Stats(b).fields;
    FieldSays(f, 0, "event_count", VNum(b.eventCount));
    FieldSays(f, 1, "bytes", VNum(b.bytes));
    MeanSize(f);
    assert f[1..][1..] == [] && DefinedCount(f[1..][1..]) == 0 && DefinedCount(f[1..]) == 1;
    hide MeanFields;
  }

  lemma IdsSay(w: Writing, b: ResultBody)
    ensures var m := MeanFields(BodyFields(w, b));
            && Says(m, "type", VStr(Ascii("job.result"))) && Says(m, "job_id", VStr(w.id(b.job)))
            && Says(m, "attempt_id", VStr(w.id(b.attempt))) && Says(m, "lease_id", VStr(w.id(b.lease)))
  {
    hide Ascii, Stats, MeanFields, DistinctKeys, Says;
    var f := BodyFields(w, b);
    KeysDistinct(w, ResultMsg(0, b));
    FieldSays(f, 0, "type", VStr(Ascii("job.result")));
    FieldSays(f, 1, "job_id", VStr(w.id(b.job)));
    FieldSays(f, 2, "attempt_id", VStr(w.id(b.attempt)));
    FieldSays(f, 3, "lease_id", VStr(w.id(b.lease)));
  }

  lemma OutcomeSays(w: Writing, b: ResultBody)
    ensures var m := MeanFields(BodyFields(w, b));
            && Says(m, "final_status", VStr(StatusText(b.finalStatus)))
            && SaysIf(m, "exit_code", if b.exitCode.Some? then Some(VNum(b.exitCode.value)) else None)
            && SaysIf(m, "error_kind", if b.errorKind.Some? then Some(VStr(w.kind(b.errorKind.value))) else None)
  {
    hide Ascii, Stats, MeanFields, DistinctKeys, Says, SaysIf;
    var f := BodyFields(w, b);
    KeysDistinct(w, ResultMsg(0, b));
    FieldSays(f, 4, "final_status", VStr(StatusText(b.finalStatus)));
    FieldSaysIf(f, 5, "exit_code", if b.exitCode.Some? then Some(VNum(b.exitCode.value)) else None);
    FieldSaysIf(f, 6, "error_kind", if b.errorKind.Some? then Some(VStr(w.kind(b.errorKind.value))) else None);
  }

  lemma TotalsSay(w: Writing, b: ResultBody)
    ensures var m := MeanFields(BodyFields(w, b));
            && Says(m, "duration_ms", VNum(b.duration)) && Says(m, "stats", Mean(Stats(b)))
            && |m| == 7 + (if b.exitCode.Some? then 1 else 0) + (if b.errorKind.Some? then 1 else 0)
  {
    hide Ascii, MeanFields, DistinctKeys, Says, DefinedCount;
    var f := BodyFields(w, b);
    KeysDistinct(w, ResultMsg(0, b));
    FieldSays(f, 7, "duration_ms", VNum(b.duration));
    FieldSays(f, 8, "stats", Mean(Stats(b)));
    MeanSize(f);
    CountNine(f);
  }

  function Counts(f: Field): nat {
    if f.val.JUndefined? then 0 else 1
  }

  lemma CountNine(f: seq<Field>)
    requires |f| == 9
    ensures DefinedCount(f) == Counts(f[0]) + Counts(f[1]) + Counts(f[2]) + Counts(f[3]) + Counts(f[4]) + Counts(f[5]) + Counts(f[6]) + Counts(f[7]) + Counts(f[8])
  {
    var g, h := f[3..], f[6..];
    assert g[0] == f[3] && g[1] == f[4] && g[2] == f[5] && g[3..] == h;
    assert h[0] == f[6] && h[1] == f[7] && h[2] == f[8] && h[3..] == [];
    CountThree(f);
    CountThree(g);
    CountThree(h);
    assert DefinedCount([]) == 0;
    hide DefinedCount;
  }

  lemma CountThree(f: seq<Field>)
    requires |f| >= 3
    ensures DefinedCount(f) == Counts(f[0]) + Counts(f[1]) + Counts(f[2]) + DefinedCount(f[3..])
  {
    assert f[1..][1..] == f[2..] && f[2..][1..] == f[3..];
  }

  lemma BodySays(w: Writing, b: ResultBody)
    ensures SaysResult(w, b, MeanFields(BodyFields(w, b)))
  {
    hide Ascii, Stats, MeanFields, BodyFields, SaysTotals, SaysIf, Mean;
    IdsSay(w, b);
    OutcomeSays(w, b);
    TotalsSay(w, b);
    StatsSay(b);
  }

  /** What is hashed is a JSON text: a reader finds in it exactly the members of the result
      under their names, neither the `id` nor the `ts` of the message. */
  lemma DigestedText(w: Writing, hash: Text -> Digest, b: ResultBody) returns (text: Text)
    requires Faithful(w)
    ensures BodyDigest(w, hash, b) == hash(text) && ID == Ascii("id") && TS == Ascii("ts")
    ensures var v := R.Parse(text); v.Some? && v.value.VObj? && SaysResult(w, b, v.value.members)
  {
    hide BodyFields, MessageFields, WithoutEnvelope, MeanFields, SaysResult, Jcs, Clean, Valid, R.Parse, Faithful;
    BodyIsWithoutEnvelope(w, ResultMsg(0, b));
    BodyClean(w, b);
    CanonicalParsesBack(JObj(BodyFields(w, b)));
    BodySays(w, b);
    text := Jcs(JObj(BodyFields(w, b))).value;
  }
}
