/** The pairing server as functions on values: what minting, completing, polling,
    confirming and rejecting do to the pairing rows, to the two indexes and to the
    device counters.

    A row is named by its position in the list of all rows ever minted, which stands
    for the identity of the row object.  Secrets and poll tokens are known by their
    hashes.  Whether a proof of possession verifies is an input. */
module PairingProtocol {
  import opened Options

  type Hash = nat
  type Key = string
  type RowId = nat

  datatype Owner = Owner(tenant: string, user: string)
  datatype Credentials = Credentials(agent: string, key: string)

  datatype PairState = Issued | Pending | Active | Rejected | Expired | Burned

  datatype PollToken = PollToken(hash: Hash, issuedAt: int, expiresAt: int, key: Key)

  datatype Row = Row(
    secret: Hash, tokenExp: int, pendingExp: int, owner: Owner,
    state: PairState, attempts: nat, winner: Option<Key>, tokens: seq<PollToken>,
    statusPolls: nat, creds: Option<Credentials>)

  /** `autoConfirm` and `forced404s` are the two test hooks of the status handler;
      `issue` makes the credentials of a row from its id and its winning key. */
  datatype Config = Config(
    attemptCap: nat, deviceCap: nat, pollTokenCap: nat, activeTokenTtl: int,
    autoConfirm: Option<int>, forced404s: nat, issue: (RowId, Key) -> Credentials)

  /** `secretOrder` is the insertion order of the secret index. */
  datatype Server = Server(
    rows: seq<Row>, bySecret: map<Hash, RowId>, secretOrder: seq<Hash>,
    byToken: map<Hash, RowId>, devices: map<Owner, nat>, registered: seq<Key>, forced: nat)

  datatype Response =
    | PairingFailed
    | Accepted(key: Key, token: Hash)
    | InvalidOrExpired
    | StillPending
    | WasRejected
    | IsActive(creds: Credentials, tenant: string)

  const EmptyServer: Server := Server([], map[], [], map[], map[], [], 0)

  function Update(s: Server, i: RowId, r: Row): Server
    requires i < |s.rows|
  {
    s.(rows := s.rows[i := r])
  }

  function Hashes(tokens: seq<PollToken>): (r: seq<Hash>)
    ensures |r| == |tokens|
    ensures forall k :: 0 <= k < |r| ==> r[k] == tokens[k].hash
  {
    if tokens == [] then [] else Hashes(tokens[..|tokens| - 1]) + [tokens[|tokens| - 1].hash]
  }

  function SetOf(hashes: seq<Hash>): set<Hash> {
    set h | h in hashes
  }

  // ---- changes to one row ----

  function Expire(s: Server, i: RowId, now: int): Server
    requires i < |s.rows|
  {
    var r := s.rows[i];
    if r.state.Issued? && r.tokenExp <= now then Update(s, i, r.(state := Expired))
    else if r.state.Pending? && r.pendingExp <= now then Update(s, i, r.(state := Expired))
    else s
  }

  /** A completion that named the row but did not win: counts only while issued. */
  function CountFailure(c: Config, s: Server, i: RowId, now: int): Server
    requires i < |s.rows|
  {
    var r := s.rows[i];
    if !r.state.Issued? then s
    else
      var s1 := Expire(s, i, now);
      if s1.rows[i].state.Expired? then s1
      else
        Update(s1, i, r.(attempts := r.attempts + 1, state := if r.attempts + 1 >= c.attemptCap then Burned else Issued))
  }

  /** The newest `cap` tokens. */
  function Newest(tokens: seq<PollToken>, cap: nat): seq<PollToken> {
    if |tokens| > cap then tokens[|tokens| - cap..] else tokens
  }

  function Evicted(tokens: seq<PollToken>, cap: nat): seq<PollToken> {
    if |tokens| > cap then tokens[..|tokens| - cap] else []
  }

  function MintToken(c: Config, s: Server, i: RowId, t: PollToken): Server
    requires i < |s.rows|
  {
    var r := s.rows[i];
    var tokens := r.tokens + [t];
    Update(s, i, r.(tokens := Newest(tokens, c.pollTokenCap)))
      .(byToken := s.byToken[t.hash := i] - SetOf(Hashes(Evicted(tokens, c.pollTokenCap))))
  }

  function Without(tokens: seq<PollToken>, h: Hash): (r: seq<PollToken>)
    ensures |r| <= |tokens|
    ensures forall t :: t in r <==> t in tokens && t.hash != h
  {
    if tokens == [] then []
    else
      var last := tokens[|tokens| - 1];
      assert tokens == tokens[..|tokens| - 1] + [last];
      if last.hash == h then Without(tokens[..|tokens| - 1], h) else Without(tokens[..|tokens| - 1], h) + [last]
  }

  function RemoveToken(s: Server, i: RowId, h: Hash): Server
    requires i < |s.rows|
  {
    Update(s, i, s.rows[i].(tokens := Without(s.rows[i].tokens, h))).(byToken := s.byToken - {h})
  }

  function Devices(s: Server, o: Owner): nat {
    if o in s.devices then s.devices[o] else 0
  }

  /** Pending becomes active, with credentials from the stored key, while the owner is
      below the device cap. */
  function ConfirmRow(c: Config, s: Server, i: RowId, now: int): Server
    requires i < |s.rows|
  {
    var s1 := Expire(s, i, now);
    var r := s1.rows[i];
    if !r.state.Pending? || r.winner.None? || Devices(s1, r.owner) >= c.deviceCap then s1
    else
      Update(s1, i, r.(state := Active, creds := Some(c.issue(i + 1, r.winner.value))))
        .(devices := s1.devices[r.owner := Devices(s1, r.owner) + 1])
  }

  // ---- requests ----

  datatype Request =
    | Mint(secret: Hash, owner: Owner, tokenTtl: int, pendingTtl: int)
    | Complete(body: Option<Completion>, token: Hash)
    | Poll(presented: Option<Hash>)
    | Confirm
    | Reject

  /** A body that passed the canonical gates. `refused` marks the published test key;
      `popOk` says that the transcript could be built and the signature verifies. */
  datatype Completion = Completion(secret: Hash, key: Key, refused: bool, popOk: bool)

  datatype Reply = Reply(server: Server, response: Option<Response>)

  function DoMint(s: Server, now: int, m: Request): Server
    requires m.Mint?
  {
    var row := Row(m.secret, (now + m.tokenTtl) / 1000 * 1000, now + m.pendingTtl, m.owner, Issued, 0, None, [], 0, None);
    s.(rows := s.rows + [row],
       bySecret := s.bySecret[m.secret := |s.rows|],
       secretOrder := if m.secret in s.bySecret then s.secretOrder else s.secretOrder + [m.secret])
  }

  function Fail(s: Server): Reply {
    Reply(s, Some(PairingFailed))
  }

  /** The first valid completion. */
  function Win(c: Config, s: Server, i: RowId, now: int, key: Key, token: Hash): Server
    requires i < |s.rows|
  {
    var s1 := MintToken(c, s, i, PollToken(token, now, s.rows[i].pendingExp, key));
    Update(s1, i, s1.rows[i].(state := Pending, winner := Some(key))).(registered := s.registered + [key])
  }

  function DoComplete(c: Config, s: Server, now: int, body: Option<Completion>, token: Hash): Reply
    requires forall h :: h in s.bySecret ==> s.bySecret[h] < |s.rows|
  {
    if body.None? || body.value.secret !in s.bySecret then Fail(s)
    else
      var m := body.value;
      var i := s.bySecret[m.secret];
      var s1 := Expire(s, i, now);
      var r := s1.rows[i];
      if r.state.Expired? || r.state.Burned? || r.state.Rejected? then Fail(s1)
      else if m.refused || !m.popOk then Fail(CountFailure(c, s1, i, now))
      else if r.state.Issued? then
        if r.attempts >= c.attemptCap then Fail(Update(s1, i, r.(state := Burned)))
        else Reply(Win(c, s1, i, now, m.key, token), Some(Accepted(m.key, token)))
      else if r.winner != Some(m.key) then Fail(s1)
      else
        var expiresAt := if r.state.Active? then now + c.activeTokenTtl else r.pendingExp;
        Reply(MintToken(c, s1, i, PollToken(token, now, expiresAt, m.key)), Some(Accepted(m.key, token)))
  }

  /** `find` by hash. */
  function FindToken(tokens: seq<PollToken>, h: Hash): (r: Option<PollToken>)
    ensures r.Some? ==> r.value in tokens && r.value.hash == h
    ensures r.None? ==> forall t :: t in tokens ==> t.hash != h
  {
    if tokens == [] then None
    else
      assert tokens == [tokens[0]] + tokens[1..];
      if tokens[0].hash == h then Some(tokens[0]) else FindToken(tokens[1..], h)
  }

  function Invalid(s: Server): Reply {
    Reply(s, Some(InvalidOrExpired))
  }

  function DoPoll(c: Config, s: Server, now: int, token: Option<Hash>): Reply
    requires forall h :: h in s.byToken ==> s.byToken[h] < |s.rows|
  {
    if token.None? || token.value !in s.byToken then Invalid(s)
    else
      var i := s.byToken[token.value];
      var found := FindToken(s.rows[i].tokens, token.value);
      if found.None? || found.value.expiresAt <= now then Invalid(RemoveToken(s, i, token.value))
      else
        var s1 := Expire(s, i, now);
        var r := s1.rows[i];
        if r.state.Expired? || r.state.Burned? || r.winner != Some(found.value.key) then Invalid(s1)
        else AnswerPoll(c, s1, i, now, token.value)
  }

  /** The answer to a live token of the winning key. */
  function AnswerPoll(c: Config, s: Server, i: RowId, now: int, token: Hash): Reply
    requires i < |s.rows|
  {
    var auto := c.autoConfirm;
    var s1 := if s.rows[i].state.Pending? && auto.Some? && auto.value <= 0 then ConfirmRow(c, s, i, now) else s;
    if s1.forced < c.forced404s then Invalid(RemoveToken(s1.(forced := s1.forced + 1), i, token))
    else
      var r := s1.rows[i];
      if r.state.Pending? && auto.Some? then
        var s2 := Update(s1, i, r.(statusPolls := r.statusPolls + 1));
        Reply(if r.statusPolls + 1 >= auto.value then ConfirmRow(c, s2, i, now) else s2, Some(StillPending))
      else if r.state.Pending? then Reply(s1, Some(StillPending))
      else if r.state.Rejected? then Reply(s1, Some(WasRejected))
      else if r.state.Active? && r.creds.Some? then Reply(s1, Some(IsActive(r.creds.value, r.owner.tenant)))
      else Invalid(s1)
  }

  /** Walk the secret index, expiring rows on the way, up to the first pending one. */
  function FirstPending(s: Server, now: int, order: seq<Hash>): (Server, Option<RowId>)
    requires forall h :: h in order ==> h in s.bySecret && s.bySecret[h] < |s.rows|
    decreases |order|
  {
    if order == [] then (s, None)
    else
      var i := s.bySecret[order[0]];
      var s1 := Expire(s, i, now);
      if s1.rows[i].state.Pending? then (s1, Some(i)) else FirstPending(s1, now, order[1..])
  }

  function DoConfirm(c: Config, s: Server, now: int): Reply
    requires forall h :: h in s.secretOrder ==> h in s.bySecret && s.bySecret[h] < |s.rows|
  {
    var (s1, i) := FirstPending(s, now, s.secretOrder);
    if i.None? || i.value >= |s1.rows| then Reply(s1, None)
    else
      var s2 := ConfirmRow(c, s1, i.value, now);
      var r := s2.rows[i.value];
      Reply(s2, if r.state.Active? && r.creds.Some? then Some(IsActive(r.creds.value, r.owner.tenant)) else None)
  }

  function DoReject(s: Server, now: int): Server
    requires forall h :: h in s.secretOrder ==> h in s.bySecret && s.bySecret[h] < |s.rows|
  {
    var (s1, i) := FirstPending(s, now, s.secretOrder);
    if i.Some? && i.value < |s1.rows| then Update(s1, i.value, s1.rows[i.value].(state := Rejected)) else s1
  }
}
