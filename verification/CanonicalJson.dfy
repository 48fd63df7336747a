/** Canonical JSON and the result digest: one text for each JSON value, whatever the
    order in which its keys were inserted (RFC 8785). */
module CanonicalJson {
  import opened CanonicalText

  /** A JavaScript value.  `JOther` is a function, symbol or bigint; numbers are
      integers or not finite.  An object lists its own keys in insertion order. */
  datatype Json =
    | JUndefined
    | JOther
    | JNull
    | JBool(b: bool)
    | JNonFinite
    | JNum(n: int)
    | JStr(s: Text)
    | JArr(items: seq<Json>)
    | JObj(fields: seq<Field>)

  datatype Field = Field(key: Text, val: Json)

  datatype Failure = UnsupportedType | NonFiniteNumber | LoneSurrogate
  datatype Result<+T> = Ok(value: T) | Err(error: Failure)

  // ---- meaning ----

  /** The JSON value that travels on the wire: an object is a map, an undefined field
      is absent, an undefined array element is null. */
  datatype Value =
    | VNull
    | VBool(b: bool)
    | VNum(n: int)
    | VStr(s: Text)
    | VArr(items: seq<Value>)
    | VObj(members: map<Text, Value>)

  function Mean(v: Json): Value {
    match v
    case JBool(b) => VBool(b)
    case JNum(n) => VNum(n)
    case JStr(s) => VStr(s)
    case JArr(items) => VArr(MeanItems(items))
    case JObj(fields) => VObj(MeanFields(fields))
    case _ => VNull
  }

  function MeanItems(items: seq<Json>): seq<Value> {
    if items == [] then [] else [Mean(items[0])] + MeanItems(items[1..])
  }

  function MeanFields(fields: seq<Field>): map<Text, Value> {
    if fields == [] then map[]
    else
      var m := MeanFields(fields[1..]);
      if fields[0].val.JUndefined? then m else m[fields[0].key := Mean(fields[0].val)]
  }

  ghost predicate DistinctKeys(fields: seq<Field>) {
    forall i, j :: 0 <= i < j < |fields| ==> fields[i].key != fields[j].key
  }

  /** An object never lists a key twice. */
  ghost predicate Valid(v: Json) {
    match v
    case JArr(items) => forall i :: 0 <= i < |items| ==> Valid(items[i])
    case JObj(fields) => DistinctKeys(fields) && forall i :: 0 <= i < |fields| ==> Valid(fields[i].val)
    case _ => true
  }

  /** Nothing in `v` makes canonicalization throw. */
  ghost predicate Clean(v: Json) {
    match v
    case JUndefined => false
    case JOther => false
    case JNonFinite => false
    case JStr(s) => !HasLone(s)
    case JArr(items) => forall i :: 0 <= i < |items| ==> items[i].JUndefined? || Clean(items[i])
    case JObj(fields) => forall i :: 0 <= i < |fields| ==> fields[i].val.JUndefined? || Clean(fields[i].val)
    case _ => true
  }

  // ---- canonicalization ----

  function Depth(v: Json): nat {
    match v
    case JArr(items) => 1 + ItemsDepth(items)
    case JObj(fields) => 1 + FieldsDepth(fields)
    case _ => 0
  }

  function ItemsDepth(items: seq<Json>): (d: nat)
    ensures forall i :: 0 <= i < |items| ==> Depth(items[i]) <= d
  {
    if items == [] then 0
    else
      var d, e := Depth(items[0]), ItemsDepth(items[1..]);
      assert forall i :: 1 <= i < |items| ==> items[i] == items[1..][i - 1];
      if d < e then e else d
  }

  function FieldsDepth(fields: seq<Field>): (d: nat)
    ensures forall i :: 0 <= i < |fields| ==> Depth(fields[i].val) <= d
  {
    if fields == [] then 0
    else
      var d, e := Depth(fields[0].val), FieldsDepth(fields[1..]);
      assert forall i :: 1 <= i < |fields| ==> fields[i] == fields[1..][i - 1];
      if d < e then e else d
  }

  function Defined(fields: seq<Field>): (r: seq<Field>)
    ensures forall f :: f in r <==> f in fields && !f.val.JUndefined?
    ensures FieldsDepth(r) <= FieldsDepth(fields)
  {
    if fields == [] then []
    else if fields[0].val.JUndefined? then Defined(fields[1..])
    else
      var r := [fields[0]] + Defined(fields[1..]);
      assert r[1..] == Defined(fields[1..]);
      r
  }

  function Insert(f: Field, sorted: seq<Field>): (r: seq<Field>)
    ensures forall g :: g in r <==> g == f || g in sorted
    ensures FieldsDepth(r) <= FieldsDepth([f] + sorted)
  {
    assert ([f] + sorted)[1..] == sorted;
    if sorted == [] || !Less(sorted[0].key, f.key) then [f] + sorted
    else
      var r := [sorted[0]] + Insert(f, sorted[1..]);
      assert r[1..] == Insert(f, sorted[1..]) && ([f] + sorted[1..])[1..] == sorted[1..];
      r
  }

  /** The keys in UTF-16 code unit order. */
  function SortFields(fields: seq<Field>): (r: seq<Field>)
    ensures forall f :: f in r <==> f in fields
    ensures FieldsDepth(r) <= FieldsDepth(fields)
  {
    if fields == [] then []
    else
      assert ([fields[0]] + SortFields(fields[1..]))[1..] == SortFields(fields[1..]);
      Insert(fields[0], SortFields(fields[1..]))
  }

  function Element(v: Json): Json {
    if v.JUndefined? then JNull else v
  }

  function Jcs(v: Json): Result<Text>
    decreases Depth(v), 0
  {
    match v
    case JNull => Ok(NULL)
    case JBool(b) => Ok(if b then TRUE else FALSE)
    case JNonFinite => Err(NonFiniteNumber)
    case JNum(n) => Ok(Integer(n))
    case JStr(s) => if HasLone(s) then Err(LoneSurrogate) else Ok(Quote(s))
    case JArr(items) =>
      (match JcsItems(items)
       case Ok(parts) => Ok([LBRACKET] + (Join(parts) + [RBRACKET]))
       case Err(e) => Err(e))
    case JObj(fields) =>
      (match JcsFields(SortFields(Defined(fields)))
       case Ok(parts) => Ok([LBRACE] + (Join(parts) + [RBRACE]))
       case Err(e) => Err(e))
    case _ => Err(UnsupportedType)
  }

  function JcsItems(items: seq<Json>): Result<seq<Text>>
    decreases ItemsDepth(items), 1 + |items|
  {
    if items == [] then Ok([])
    else match Jcs(Element(items[0]))
      case Err(e) => Err(e)
      case Ok(part) =>
        match JcsItems(items[1..])
        case Err(e) => Err(e)
        case Ok(parts) => Ok([part] + parts)
  }

  function JcsFields(fields: seq<Field>): Result<seq<Text>>
    decreases FieldsDepth(fields), 1 + |fields|
  {
    if fields == [] then Ok([])
    else match Jcs(fields[0].val)
      case Err(e) => Err(e)
      case Ok(part) =>
        match JcsFields(fields[1..])
        case Err(e) => Err(e)
        case Ok(parts) => Ok([Quote(fields[0].key) + ([COLON] + part)] + parts)
  }

  function Join(parts: seq<Text>): Text {
    if parts == [] then []
    else if |parts| == 1 then parts[0]
    else parts[0] + ([COMMA] + Join(parts[1..]))
  }
}
