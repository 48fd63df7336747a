/** The pairing server over mutable row objects, reached through a map by secret hash
    and a map by poll-token hash.  Every operation is proved to do what
    `PairingProtocol` says, and every request to keep the invariant. */
module PairingService {
  import opened Options
  import opened PairingProtocol
  import opened PairingInvariant
  import opened PairingRuns

  class PairingRow {
    const id: nat
    const secret: Hash
    const tokenExp: int
    const pendingExp: int
    const owner: Owner
    var state: PairState
    var attempts: nat
    var winner: Option<Key>
    var tokens: seq<PollToken>
    var statusPolls: nat
    var creds: Option<Credentials>

    constructor (id: nat, secret: Hash, tokenExp: int, pendingExp: int, owner: Owner)
      ensures this.id == id && View() == Row(secret, tokenExp, pendingExp, owner, Issued, 0, None, [], 0, None)
    {
      this.id, this.secret, this.tokenExp, this.pendingExp, this.owner := id, secret, tokenExp, pendingExp, owner;
      state, attempts, winner, tokens, statusPolls, creds := Issued, 0, None, [], 0, None;
    }

    function View(): Row
      reads this
    {
      Row(secret, tokenExp, pendingExp, owner, state, attempts, winner, tokens, statusPolls, creds)
    }
  }

  class PairingServer {
    const config: Config
    var rowsBySecretHash: map<Hash, PairingRow>
    var secretOrder: seq<Hash>
    var rowsByPollTokenHash: map<Hash, PairingRow>
    var activeDeviceCounts: map<Owner, nat>
    var registeredPublicKeys: seq<Key>
    var forcedValidStatus404s: nat
    var nextPairingId: nat

    /** Every row ever minted, in order of id. */
    ghost var rows: seq<PairingRow>

    ghost function Rows(): (r: seq<Row>)
      reads `rows, rows
      ensures |r| == |rows| && forall i :: 0 <= i < |r| ==> r[i] == rows[i].View()
    {
      var all := rows;
      seq(|all|, i requires 0 <= i < |all| reads all => all[i].View())
    }

    static ghost function Ids(m: map<Hash, PairingRow>): map<Hash, RowId> {
      map h | h in m :: if m[h].id > 0 then m[h].id - 1 else 0
    }

    ghost function View(): Server
      reads this, rows
    {
      Server(Rows(), Ids(rowsBySecretHash), secretOrder, Ids(rowsByPollTokenHash), activeDeviceCounts, registeredPublicKeys, forcedValidStatus404s)
    }

    /** Ids are positions, counted from one. */
    ghost predicate Linked()
      reads `rows, `rowsBySecretHash, `rowsByPollTokenHash, `nextPairingId
    {
      && nextPairingId == |rows| + 1
      && (forall i :: 0 <= i < |rows| ==> rows[i].id == i + 1)
      && (forall h :: h in rowsBySecretHash ==> rowsBySecretHash[h] in rows)
      && (forall h :: h in rowsByPollTokenHash ==> rowsByPollTokenHash[h] in rows)
    }

    ghost predicate Valid()
      reads this, rows
    {
      Linked() && Indexed(View()) && Inv(config, View())
    }

    constructor (config: Config)
      ensures Valid() && View() == EmptyServer && this.config == config
    {
      this.config := config;
      rowsBySecretHash, secretOrder, rowsByPollTokenHash := map[], [], map[];
      activeDeviceCounts, registeredPublicKeys, forcedValidStatus404s, nextPairingId := map[], [], 0, 1;
      rows := [];
      new;
      InvEmpty(config);
      assert View() == EmptyServer;
    }

    // ---- objects and the values they stand for ----

    lemma Known(row: PairingRow)
      requires Linked() && row in rows
      ensures 0 < row.id <= |rows| && rows[row.id - 1] == row && Rows()[row.id - 1] == row.View()
      ensures forall i :: 0 <= i < |rows| && i != row.id - 1 ==> rows[i] != row
    {
    }

    lemma SecretRow(h: Hash)
      requires Linked()
      ensures h in rowsBySecretHash <==> h in Ids(rowsBySecretHash)
      ensures h in rowsBySecretHash ==> rowsBySecretHash[h] in rows && Ids(rowsBySecretHash)[h] == rowsBySecretHash[h].id - 1
    {
      if h in rowsBySecretHash { Known(rowsBySecretHash[h]); }
    }

    lemma TokenRow(h: Hash)
      requires Linked()
      ensures h in rowsByPollTokenHash <==> h in Ids(rowsByPollTokenHash)
      ensures h in rowsByPollTokenHash ==> rowsByPollTokenHash[h] in rows && Ids(rowsByPollTokenHash)[h] == rowsByPollTokenHash[h].id - 1
    {
      if h in rowsByPollTokenHash { Known(rowsByPollTokenHash[h]); }
    }

    /** One row object changes: the view changes in that row alone. */
    twostate lemma RowChanged(row: PairingRow)
      requires old(Linked()) && row in old(rows) && rows == old(rows)
      requires rowsBySecretHash == old(rowsBySecretHash) && nextPairingId == old(nextPairingId)
      requires forall h :: h in rowsByPollTokenHash ==> rowsByPollTokenHash[h] in rows
      requires forall i :: 0 <= i < |rows| && i != row.id - 1 ==> rows[i].View() == old(rows[i].View())
      ensures Linked() && 0 < row.id <= |rows| && Rows() == old(Rows())[row.id - 1 := row.View()]
    {
    }

    // ---- changes to one row ----

    method ExpireRowIfNeeded(row: PairingRow, now: int) returns (expired: bool)
      requires Linked() && row in rows
      modifies row`state
      ensures Linked() && 0 < row.id <= |rows|
      ensures View() == Expire(old(View()), row.id - 1, now)
      ensures expired <==> row.state.Expired?
    {
      hide Rows, Ids, Linked;
      Known(row);
      if row.state.Issued? && row.tokenExp <= now {
        row.state := Expired;
      } else if row.state.Pending? && row.pendingExp <= now {
        row.state := Expired;
      }
      TokensLinked();
      RowChanged(row);
      expired := row.state.Expired?;
    }

    lemma TokensLinked()
      requires Linked()
      ensures forall h :: h in rowsByPollTokenHash ==> rowsByPollTokenHash[h] in rows
    {
    }

    method IncrementAttemptOrBurn(row: PairingRow, now: int)
      requires Linked() && row in rows
      modifies row`state, row`attempts
      ensures Linked() && 0 < row.id <= |rows|
      ensures View() == CountFailure(config, old(View()), row.id - 1, now)
    {
      hide Rows, Ids, Linked;
      Known(row);
      if !row.state.Issued? { return; }
      var expired := ExpireRowIfNeeded(row, now);
      if expired { return; }
      label L:
      row.attempts := row.attempts + 1;
      if row.attempts >= config.attemptCap { row.state := Burned; }
      TokensLinked();
      RowChanged(row);
    }

    /** A new token for the row; while the list is over its cap the oldest goes. */
    method MintPollToken(row: PairingRow, issuedAt: int, expiresAt: int, key: Key, token: Hash)
      requires Linked() && row in rows
      modifies row`tokens, `rowsByPollTokenHash
      ensures Linked() && 0 < row.id <= |rows|
      ensures View() == MintToken(config, old(View()), row.id - 1, PollToken(token, issuedAt, expiresAt, key))
    {
      hide Rows, Ids, Linked, Hashes, Newest, Evicted;
      Known(row);
      TokensLinked();
      ghost var before := rowsByPollTokenHash;
      row.tokens := row.tokens + [PollToken(token, issuedAt, expiresAt, key)];
      rowsByPollTokenHash := rowsByPollTokenHash[token := row];
      ghost var all := row.tokens;
      EvictOldest(row);
      IdsMoved(before, token, row, SetOf(Hashes(Evicted(all, config.pollTokenCap))));
      StillLinked(before, row);
      RowChanged(row);
    }

    method EvictOldest(row: PairingRow)
      modifies row`tokens, `rowsByPollTokenHash
      ensures row.tokens == Newest(old(row.tokens), config.pollTokenCap)
      ensures rowsByPollTokenHash == old(rowsByPollTokenHash) - SetOf(Hashes(Evicted(old(row.tokens), config.pollTokenCap)))
    {
      ghost var all, k := row.tokens, 0;
      while |row.tokens| > config.pollTokenCap
        invariant 0 <= k <= |Evicted(all, config.pollTokenCap)| && row.tokens == all[k..]
        invariant rowsByPollTokenHash == old(rowsByPollTokenHash) - SetOf(Hashes(all[..k]))
        decreases |row.tokens|
      {
        var evicted := row.tokens[0];
        row.tokens := row.tokens[1..];
        rowsByPollTokenHash := rowsByPollTokenHash - {evicted.hash};
        HashesPrefix(all, k);
        k := k + 1;
      }
      assert all[..k] == Evicted(all, config.pollTokenCap);
    }

    /** One entry more, some fewer: the index the model sees moves alike. */
    lemma IdsMoved(m: map<Hash, PairingRow>, token: Hash, row: PairingRow, gone: set<Hash>)
      requires row.id > 0
      ensures Ids(m[token := row] - gone) == Ids(m)[token := row.id - 1] - gone
      ensures Ids(m - gone) == Ids(m) - gone
    {
    }

    lemma IdsAdded(m: map<Hash, PairingRow>, h: Hash, row: PairingRow)
      requires row.id > 0
      ensures Ids(m[h := row]) == Ids(m)[h := row.id - 1]
    {
    }

    lemma StillLinked(before: map<Hash, PairingRow>, row: PairingRow)
      requires forall h :: h in before ==> before[h] in rows
      requires row in rows
      requires forall h | h in rowsByPollTokenHash && rowsByPollTokenHash[h] != row ::
                 h in before && rowsByPollTokenHash[h] == before[h]
      ensures forall h :: h in rowsByPollTokenHash ==> rowsByPollTokenHash[h] in rows
    {
    }

    method RemovePollToken(row: PairingRow, h: Hash)
      requires Linked() && row in rows
      modifies row`tokens, `rowsByPollTokenHash
      ensures Linked() && 0 < row.id <= |rows|
      ensures View() == RemoveToken(old(View()), row.id - 1, h)
    {
      hide Rows, Ids, Linked, Without;
      Known(row);
      row.tokens := Without(row.tokens, h);
      TokensLinked();
      ghost var before := rowsByPollTokenHash;
      rowsByPollTokenHash := rowsByPollTokenHash - {h};
      IdsMoved(before, h, row, {h});
      StillLinked(before, row);
      RowChanged(row);
    }

    method ConfirmPairing(row: PairingRow, now: int) returns (active: bool)
      requires Linked() && row in rows
      modifies row`state, row`creds, `activeDeviceCounts
      ensures Linked() && 0 < row.id <= |rows|
      ensures View() == ConfirmRow(config, old(View()), row.id - 1, now)
      ensures active <==> row.state.Active?
    {
      hide Rows, Ids, Linked;
      Known(row);
      var expired := ExpireRowIfNeeded(row, now);
      active := row.state.Active?;
      if !row.state.Pending? || row.winner.None? { return; }
      var count := if row.owner in activeDeviceCounts then activeDeviceCounts[row.owner] else 0;
      if count >= config.deviceCap { return; }
      Activate(row);
      active := true;
    }

    method Activate(row: PairingRow)
      requires Linked() && row in rows && row.winner.Some?
      modifies row`state, row`creds, `activeDeviceCounts
      ensures Linked() && 0 < row.id <= |rows|
      ensures row.View() == old(row.View()).(state := Active, creds := Some(config.issue(row.id, row.winner.value)))
      ensures var s := old(View());
              View() == Update(s, row.id - 1, row.View()).(devices := s.devices[row.owner := Devices(s, row.owner) + 1])
    {
      hide Rows, Ids, Linked;
      Known(row);
      var count := if row.owner in activeDeviceCounts then activeDeviceCounts[row.owner] else 0;
      row.creds := Some(config.issue(row.id, row.winner.value));
      row.state := Active;
      activeDeviceCounts := activeDeviceCounts[row.owner := count + 1];
      TokensLinked();
      RowChanged(row);
    }

    // ---- requests ----

    method MintPairing(now: int, secret: Hash, owner: Owner, tokenTtl: int, pendingTtl: int)
      requires Valid()
      modifies this
      ensures Valid() && View() == old(React(config, View(), now, Mint(secret, owner, tokenTtl, pendingTtl)).server)
    {
      hide Inv, Rows, Ids, Linked, Indexed, DoMint;
      InvReact(config, View(), now, Mint(secret, owner, tokenTtl, pendingTtl));
      AddRow(now, secret, owner, tokenTtl, pendingTtl);
    }

    method AddRow(now: int, secret: Hash, owner: Owner, tokenTtl: int, pendingTtl: int)
      requires Linked()
      modifies this
      ensures Linked() && View() == old(DoMint(View(), now, Mint(secret, owner, tokenTtl, pendingTtl)))
    {
      hide Rows, Ids, Linked;
      var row := new PairingRow(nextPairingId, secret, (now + tokenTtl) / 1000 * 1000, now + pendingTtl, owner);
      SecretRow(secret);
      if secret !in rowsBySecretHash { secretOrder := secretOrder + [secret]; }
      rowsBySecretHash := rowsBySecretHash[secret := row];
      nextPairingId := nextPairingId + 1;
      rows := rows + [row];
      RowAdded(row);
      IdsAdded(old(rowsBySecretHash), secret, row);
    }

    twostate lemma RowAdded(new row: PairingRow)
      requires old(Linked()) && row.id == old(nextPairingId) && nextPairingId == old(nextPairingId) + 1
      requires rows == old(rows) + [row] && rowsBySecretHash == old(rowsBySecretHash)[row.secret := row]
      requires rowsByPollTokenHash == old(rowsByPollTokenHash)
      requires forall i :: 0 <= i < |old(rows)| ==> old(rows)[i].View() == old(rows[i].View())
      ensures Linked() && Rows() == old(Rows()) + [row.View()] && row.id == |old(rows)| + 1
    {
    }

    method HandleComplete(now: int, body: Option<Completion>, token: Hash) returns (response: Response)
      requires Valid() && token !in rowsByPollTokenHash
      modifies this, rows
      ensures Valid()
      ensures var p := old(React(config, View(), now, Complete(body, token)));
              View() == p.server && p.response == Some(response)
    {
      hide Inv, Rows, Ids, Linked, Indexed, Expire, CountFailure, MintToken;
      ghost var s := View();
      TokenRow(token);
      InvReact(config, s, now, Complete(body, token));
      IndexedParts(s);
      if body.None? { return PairingFailed; }
      var m := body.value;
      SecretRow(m.secret);
      if m.secret !in rowsBySecretHash { return PairingFailed; }
      var row := rowsBySecretHash[m.secret];
      response := CompleteRow(row, now, m, token);
    }

    lemma IndexedParts(s: Server)
      requires Indexed(s)
      ensures forall h :: h in s.bySecret ==> s.bySecret[h] < |s.rows|
      ensures forall h :: h in s.byToken ==> s.byToken[h] < |s.rows|
      ensures forall h :: h in s.secretOrder ==> h in s.bySecret && s.bySecret[h] < |s.rows|
    {
    }

    method CompleteRow(row: PairingRow, now: int, m: Completion, token: Hash) returns (response: Response)
      requires Linked() && row in rows && m.secret in rowsBySecretHash && rowsBySecretHash[m.secret] == row
      requires Indexed(View())
      modifies row, this
      ensures Linked()
      ensures var p := old(DoComplete(config, View(), now, Some(m), token));
              View() == p.server && p.response == Some(response)
    {
      hide Inv, Rows, Ids, Linked, Expire, CountFailure, MintToken;
      IndexedParts(View());
      SecretRow(m.secret);
      Known(row);
      var expired := ExpireRowIfNeeded(row, now);
      Known(row);
      if row.state.Expired? || row.state.Burned? || row.state.Rejected? { return PairingFailed; }
      if m.refused || !m.popOk {
        IncrementAttemptOrBurn(row, now);
        return PairingFailed;
      }
      if row.state.Issued? {
        if row.attempts >= config.attemptCap {
          BurnRow(row);
          return PairingFailed;
        }
        RecordWin(row, now, m.key, token);
        return Accepted(m.key, token);
      }
      if row.winner != Some(m.key) { return PairingFailed; }
      var expiresAt := if row.state.Active? then now + config.activeTokenTtl else row.pendingExp;
      MintPollToken(row, now, expiresAt, m.key, token);
      return Accepted(m.key, token);
    }

    method BurnRow(row: PairingRow)
      requires Linked() && row in rows
      modifies row`state
      ensures Linked() && 0 < row.id <= |rows|
      ensures View() == Update(old(View()), row.id - 1, old(row.View()).(state := Burned))
    {
      hide Rows, Ids, Linked;
      Known(row);
      row.state := Burned;
      TokensLinked();
      RowChanged(row);
    }

    /** The first valid completion: a token, then the winner. */
    method RecordWin(row: PairingRow, now: int, key: Key, token: Hash)
      requires Linked() && row in rows
      modifies row`state, row`winner, row`tokens, `rowsByPollTokenHash, `registeredPublicKeys
      ensures Linked() && 0 < row.id <= |rows|
      ensures View() == Win(config, old(View()), row.id - 1, now, key, token)
    {
      hide Rows, Ids, Linked, Newest, Evicted, Hashes;
      Known(row);
      MintPollToken(row, now, row.pendingExp, key, token);
      Known(row);
      label L:
      row.state := Pending;
      row.winner := Some(key);
      registeredPublicKeys := registeredPublicKeys + [key];
      TokensLinked();
      RowChanged@L(row);
    }

    method HandleStatus(now: int, presented: Option<Hash>) returns (response: Response)
      requires Valid()
      modifies this, rows
      ensures Valid()
      ensures var p := old(React(config, View(), now, Poll(presented)));
              View() == p.server && p.response == Some(response)
    {
      hide Inv, Rows, Ids, Linked, Indexed, Expire, RemoveToken, AnswerPoll;
      ghost var s := View();
      InvReact(config, s, now, Poll(presented));
      IndexedParts(s);
      if presented.None? { return InvalidOrExpired; }
      var h := presented.value;
      TokenRow(h);
      if h !in rowsByPollTokenHash { return InvalidOrExpired; }
      var row := rowsByPollTokenHash[h];
      response := StatusOfRow(row, now, h);
    }

    method StatusOfRow(row: PairingRow, now: int, h: Hash) returns (response: Response)
      requires Linked() && row in rows && h in rowsByPollTokenHash && rowsByPollTokenHash[h] == row
      requires Indexed(View())
      modifies row, this
      ensures Linked()
      ensures var p := old(DoPoll(config, View(), now, Some(h)));
              View() == p.server && p.response == Some(response)
    {
      hide Inv, Rows, Ids, Linked, Expire, RemoveToken, AnswerPoll;
      IndexedParts(View());
      TokenRow(h);
      Known(row);
      var token := FindToken(row.tokens, h);
      if token.None? || token.value.expiresAt <= now {
        RemovePollToken(row, h);
        return InvalidOrExpired;
      }
      var expired := ExpireRowIfNeeded(row, now);
      Known(row);
      if row.state.Expired? || row.state.Burned? || row.winner != Some(token.value.key) { return InvalidOrExpired; }
      response := Answer(row, now, h);
    }

    /** The answer to a live token of the winning key, test hooks included. */
    method Answer(row: PairingRow, now: int, h: Hash) returns (response: Response)
      requires Linked() && row in rows
      modifies row, this
      ensures Linked() && 0 < row.id <= |rows|
      ensures var p := AnswerPoll(config, old(View()), row.id - 1, now, h); View() == p.server && p.response == Some(response)
    {
      hide Inv, Rows, Ids, Linked, ConfirmRow, RemoveToken;
      Known(row);
      ConfirmEarly(row, now);
      Known(row);
      if forcedValidStatus404s < config.forced404s {
        forcedValidStatus404s := forcedValidStatus404s + 1;
        RemovePollToken(row, h);
        return InvalidOrExpired;
      }
      if row.state.Pending? {
        if config.autoConfirm.Some? { CountStatusPoll(row, now, config.autoConfirm.value); }
        return StillPending;
      }
      if row.state.Rejected? { return WasRejected; }
      if row.state.Active? && row.creds.Some? { return IsActive(row.creds.value, row.owner.tenant); }
      return InvalidOrExpired;
    }

    method ConfirmEarly(row: PairingRow, now: int)
      requires Linked() && row in rows
      modifies row, this
      ensures Linked() && 0 < row.id <= |rows| && rows == old(rows)
      ensures var s, auto := old(View()), config.autoConfirm;
              View() ==
              if s.rows[row.id - 1].state.Pending? && auto.Some? && auto.value <= 0 then ConfirmRow(config, s, row.id - 1, now) else s
    {
      hide Rows, Ids, Linked, ConfirmRow;
      Known(row);
      if row.state.Pending? && config.autoConfirm.Some? && config.autoConfirm.value <= 0 {
        var _ := ConfirmPairing(row, now);
      }
    }

    /** One more poll answered; the hook confirms after enough of them. */
    method CountStatusPoll(row: PairingRow, now: int, enough: int)
      requires Linked() && row in rows
      modifies row, this
      ensures Linked() && 0 < row.id <= |rows| && rows == old(rows)
      ensures var s, r := old(View()), old(row.View());
              var t := Update(s, row.id - 1, r.(statusPolls := r.statusPolls + 1));
              View() == if r.statusPolls + 1 >= enough then ConfirmRow(config, t, row.id - 1, now) else t
    {
      hide Rows, Ids, Linked, ConfirmRow;
      Known(row);
      row.statusPolls := row.statusPolls + 1;
      TokensLinked();
      RowChanged(row);
      if row.statusPolls >= enough { var _ := ConfirmPairing(row, now); }
    }

    method FirstPendingRow(now: int) returns (row: PairingRow?)
      requires Valid()
      modifies rows
      ensures Valid()
      ensures row != null ==> row in rows && row.state.Pending? && 0 < row.id <= |rows|
      ensures forall h :: h in old(View()).secretOrder ==> h in old(View()).bySecret && old(View()).bySecret[h] < |old(View()).rows|
      ensures var p := FirstPending(old(View()), now, old(View()).secretOrder);
              View() == p.0 && p.1 == if row == null then None else Some(row.id - 1)
    {
      hide Inv, Rows, Ids, Linked, Indexed, Expire, FirstPending;
      ghost var s := View();
      IndexedParts(s);
      assert secretOrder[0..] == secretOrder;
      var k := 0;
      while k < |secretOrder|
        invariant 0 <= k <= |secretOrder| && Linked() && Inv(config, View())
        invariant View().secretOrder == s.secretOrder && View().bySecret == s.bySecret && |View().rows| == |s.rows|
        invariant FirstPending(s, now, s.secretOrder) == FirstPending(View(), now, secretOrder[k..])
      {
        var h := secretOrder[k];
        assert h in s.secretOrder;
        SecretRow(h);
        row := rowsBySecretHash[h];
        Known(row);
        FirstPendingFrom(config, View(), now, secretOrder, k);
        var expired := ExpireRowIfNeeded(row, now);
        Known(row);
        if row.state.Pending? { InvIndexed(config, View()); return; }
        k := k + 1;
      }
      NonePending(View(), now);
      InvIndexed(config, View());
      assert secretOrder[k..] == [];
      row := null;
    }

    method ConfirmFirst(now: int) returns (response: Option<Response>)
      requires Valid()
      modifies this, rows
      ensures Valid()
      ensures var p := old(React(config, View(), now, Confirm)); View() == p.server && p.response == response
    {
      hide Inv, Rows, Ids, Linked, Indexed, DoConfirm;
      InvReact(config, View(), now, Confirm);
      IndexedParts(View());
      response := ConfirmPending(now);
    }

    method ConfirmPending(now: int) returns (response: Option<Response>)
      requires Valid()
      modifies this, rows
      ensures Linked()
      ensures var p := old(DoConfirm(config, View(), now)); View() == p.server && p.response == response
    {
      hide Inv, Rows, Ids, Linked, FirstPending, ConfirmRow;
      var row := FirstPendingRow(now);
      if row == null { return None; }
      var active := ConfirmPairing(row, now);
      Known(row);
      if active && row.creds.Some? { return Some(IsActive(row.creds.value, row.owner.tenant)); }
      return None;
    }

    method RejectFirst(now: int)
      requires Valid()
      modifies this, rows
      ensures Valid() && View() == old(React(config, View(), now, Reject)).server
    {
      hide Inv, Rows, Ids, Linked, Indexed, DoReject;
      InvReact(config, View(), now, Reject);
      IndexedParts(View());
      RejectPending(now);
    }

    method RejectPending(now: int)
      requires Valid()
      modifies this, rows
      ensures Linked() && View() == old(DoReject(View(), now))
    {
      hide Inv, Rows, Ids, Linked, FirstPending;
      var row := FirstPendingRow(now);
      if row != null { RejectPairing(row); }
    }

    method RejectPairing(row: PairingRow)
      requires Linked() && row in rows
      modifies row`state
      ensures Linked() && 0 < row.id <= |rows|
      ensures View() == Update(old(View()), row.id - 1, old(Rows())[row.id - 1].(state := Rejected))
    {
      hide Rows, Ids, Linked;
      Known(row);
      row.state := Rejected;
      TokensLinked();
      RowChanged(row);
    }
  }

  /** Looking from position `k` is looking at that row, then from the next. */
  lemma FirstPendingFrom(c: Config, s: Server, now: int, order: seq<Hash>, k: nat)
    requires Inv(c, s) && k < |order| && forall h :: h in order ==> h in s.bySecret && s.bySecret[h] < |s.rows|
    ensures var i, t := s.bySecret[order[k]], Expire(s, s.bySecret[order[k]], now);
            && Inv(c, t) && |t.rows| == |s.rows| && t.bySecret == s.bySecret && t.secretOrder == s.secretOrder
            && (forall h :: h in order[k + 1..] ==> h in t.bySecret && t.bySecret[h] < |t.rows|)
            && FirstPending(s, now, order[k..]) ==
               if t.rows[i].state.Pending? then (t, Some(i)) else FirstPending(t, now, order[k + 1..])
  {
    assert order[k..][0] == order[k] && order[k..][1..] == order[k + 1..];
    ExpireStep(c, s, s.bySecret[order[k]], now) by { hide Inv, AllProgress; }
    hide Inv;
  }

  lemma NonePending(s: Server, now: int)
    ensures FirstPending(s, now, []) == (s, None)
  {
  }

  lemma HashesPrefix(all: seq<PollToken>, k: nat)
    requires k < |all|
    ensures Hashes(all[..k + 1]) == Hashes(all[..k]) + [all[k].hash]
  {
    assert all[..k + 1][..k] == all[..k];
  }
}
