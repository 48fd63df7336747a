/** What every request to the pairing server keeps: each row is in order, the poll
    token index agrees with the rows, and the device counters count active rows. */
module PairingInvariant {
  import opened Options
  import opened PairingProtocol

  ghost predicate DistinctHashes(tokens: seq<PollToken>) {
    forall j, k :: 0 <= j < k < |tokens| ==> tokens[j].hash != tokens[k].hash
  }

  /** One row: a winner exactly from `pending` on, credentials exactly when active and
      made from the winner, failures within the cap (within one when the cap is zero), tokens
      within their cap and all of the winning key. */
  ghost predicate RowOk(c: Config, i: RowId, r: Row) {
    && (r.state.Issued? || r.state.Burned? ==> r.winner.None?)
    && (r.state.Pending? || r.state.Active? || r.state.Rejected? ==> r.winner.Some?)
    && (r.creds.Some? <==> r.state.Active?)
    && (r.state.Active? ==> r.creds == Some(c.issue(i + 1, r.winner.value)))
    && r.attempts <= (if c.attemptCap == 0 then 1 else c.attemptCap)
    && (r.state.Issued? && r.attempts > 0 ==> r.attempts < c.attemptCap)
    && |r.tokens| <= c.pollTokenCap && DistinctHashes(r.tokens)
    && (forall t :: t in r.tokens ==> r.winner == Some(t.key))
  }

  /** A row as it is at a time: an issued one is over at its token's deadline, a pending
      one at its own. */
  ghost function Seen(r: Row, now: int): Row {
    if r.state == Issued && now >= r.tokenExp then r.(state := Expired)
    else if r.state == Pending && now >= r.pendingExp then r.(state := Expired)
    else r
  }

  /** Looking at a row notes its expiry, and changes nothing else. */
  lemma ExpireSees(s: Server, i: RowId, now: int)
    requires i < |s.rows|
    ensures Expire(s, i, now) == s.(rows := s.rows[i := Seen(s.rows[i], now)])
  {
    assert s.rows[i := s.rows[i]] == s.rows;
  }

  ghost predicate Holds(r: Row, h: Hash) {
    h in Hashes(r.tokens)
  }

  /** A hash is indexed exactly when some row holds it, and then by that row. */
  ghost predicate TokensAgree(s: Server) {
    && (forall h :: h in s.byToken ==> s.byToken[h] < |s.rows| && Holds(s.rows[s.byToken[h]], h))
    && (forall i, h :: 0 <= i < |s.rows| && Holds(s.rows[i], h) ==> h in s.byToken && s.byToken[h] == i)
  }

  ghost predicate SecretsAgree(s: Server) {
    && (forall h :: h in s.bySecret ==> s.bySecret[h] < |s.rows| && s.rows[s.bySecret[h]].secret == h)
    && (forall h :: h in s.secretOrder <==> h in s.bySecret)
    && (forall j, k :: 0 <= j < k < |s.secretOrder| ==> s.secretOrder[j] != s.secretOrder[k])
    && (forall i :: 0 <= i < |s.rows| ==> s.rows[i].secret in s.bySecret)
  }

  function ActiveRows(rows: seq<Row>, o: Owner): nat {
    if rows == [] then 0
    else
      var last := rows[|rows| - 1];
      ActiveRows(rows[..|rows| - 1], o) + if last.state.Active? && last.owner == o then 1 else 0
  }

  ghost predicate DevicesAgree(c: Config, s: Server) {
    forall o: Owner :: Devices(s, o) == ActiveRows(s.rows, o) && Devices(s, o) <= c.deviceCap
  }

  ghost predicate Inv(c: Config, s: Server) {
    && (forall i :: 0 <= i < |s.rows| ==> RowOk(c, i, s.rows[i]))
    && TokensAgree(s)
    && SecretsAgree(s)
    && DevicesAgree(c, s)
  }

  // ---- what may happen to a row ----

  predicate MayBecome(a: PairState, b: PairState) {
    match a
    case Issued => true
    case Pending => !b.Issued? && !b.Burned?
    case _ => b == a
  }

  /** The life of a row: the state moves forward only, terminal states absorb, the
      winner never changes, failures count only before a win. */
  ghost predicate Progress(r: Row, t: Row) {
    && t.secret == r.secret && t.owner == r.owner && t.tokenExp == r.tokenExp && t.pendingExp == r.pendingExp
    && MayBecome(r.state, t.state)
    && (r.winner.Some? ==> t.winner == r.winner)
    && r.attempts <= t.attempts
    && (!r.state.Issued? ==> t.attempts == r.attempts)
    && (r.creds.Some? ==> t.creds == r.creds)
  }

  ghost predicate AllProgress(s: Server, t: Server) {
    |s.rows| <= |t.rows| && forall i :: 0 <= i < |s.rows| ==> Progress(s.rows[i], t.rows[i])
  }

  lemma ProgressTrans(a: Row, b: Row, d: Row)
    requires Progress(a, b) && Progress(b, d)
    ensures Progress(a, d)
  {
  }

  lemma AllProgressRefl(a: Server)
    ensures AllProgress(a, a)
  {
  }

  lemma AllProgressTrans(a: Server, b: Server, d: Server)
    requires AllProgress(a, b) && AllProgress(b, d)
    ensures AllProgress(a, d)
  {
    forall i | 0 <= i < |a.rows| ensures Progress(a.rows[i], d.rows[i]) {
      ProgressTrans(a.rows[i], b.rows[i], d.rows[i]);
    }
  }

  // ---- frame ----

  lemma {:induction false} ActiveUpdate(rows: seq<Row>, i: nat, r: Row, o: Owner)
    requires i < |rows| && r.owner == rows[i].owner
    ensures ActiveRows(rows[i := r], o) ==
            ActiveRows(rows, o)
            + (if r.state.Active? && r.owner == o then 1 else 0)
            - (if rows[i].state.Active? && rows[i].owner == o then 1 else 0)
  {
    var n := |rows| - 1;
    if i < n {
      ActiveUpdate(rows[..n], i, r, o);
      assert rows[i := r][..n] == rows[..n][i := r];
    } else {
      assert rows[i := r][..n] == rows[..n];
    }
  }

  ghost predicate OnlyRow(s: Server, t: Server, i: RowId) {
    && i < |s.rows| && |t.rows| == |s.rows|
    && (forall j :: 0 <= j < |s.rows| && j != i ==> t.rows[j] == s.rows[j])
    && t.rows[i].secret == s.rows[i].secret && t.rows[i].owner == s.rows[i].owner
    && t.bySecret == s.bySecret && t.secretOrder == s.secretOrder
  }

  /** The index entries of row `i` follow its tokens, the others stay. */
  ghost predicate IndexFollows(s: Server, t: Server, i: RowId)
    requires i < |t.rows|
  {
    && (forall h :: Holds(t.rows[i], h) <==> h in t.byToken && t.byToken[h] == i)
    && (forall h :: h in t.byToken && t.byToken[h] != i ==> h in s.byToken && s.byToken[h] == t.byToken[h])
    && (forall h :: h in s.byToken && s.byToken[h] != i ==> h in t.byToken && t.byToken[h] == s.byToken[h])
  }

  lemma TokensFrame(s: Server, t: Server, i: RowId)
    requires TokensAgree(s) && OnlyRow(s, t, i) && IndexFollows(s, t, i)
    ensures TokensAgree(t)
  {
    hide Hashes;
  }

  lemma SecretsFrame(s: Server, t: Server, i: RowId)
    requires SecretsAgree(s) && OnlyRow(s, t, i)
    ensures SecretsAgree(t)
  {
  }

  /** The counter of the owner moves with the activity of the row. */
  lemma DevicesFrame(c: Config, s: Server, t: Server, i: RowId)
    requires DevicesAgree(c, s) && OnlyRow(s, t, i)
    requires s.rows[i].state.Active? ==> t.rows[i].state.Active?
    requires forall o: Owner ::
               Devices(t, o) ==
               Devices(s, o) + if t.rows[i].state.Active? && !s.rows[i].state.Active? && o == t.rows[i].owner then 1 else 0
    requires !s.rows[i].state.Active? && t.rows[i].state.Active? ==> Devices(s, t.rows[i].owner) < c.deviceCap
    ensures DevicesAgree(c, t)
  {
    assert t.rows == s.rows[i := t.rows[i]];
    hide ActiveRows;
    forall o: Owner ensures Devices(t, o) == ActiveRows(t.rows, o) && Devices(t, o) <= c.deviceCap {
      ActiveUpdate(s.rows, i, t.rows[i], o);
    }
  }

  /** One row changes, its index entries follow, nothing else moves. */
  lemma TokenStep(c: Config, s: Server, t: Server, i: RowId)
    requires Inv(c, s) && OnlyRow(s, t, i) && IndexFollows(s, t, i)
    requires RowOk(c, i, t.rows[i]) && t.devices == s.devices
    requires t.rows[i].state.Active? <==> s.rows[i].state.Active?
    ensures Inv(c, t)
  {
    forall o: Owner ensures Devices(t, o) == Devices(s, o) { }
    hide RowOk, TokensAgree, SecretsAgree, DevicesAgree, IndexFollows, Devices;
    TokensFrame(s, t, i);
    SecretsFrame(s, t, i);
    DevicesFrame(c, s, t, i);
  }

  /** The same, when the tokens of the row stay as they are. */
  lemma RowStep(c: Config, s: Server, i: RowId, r: Row)
    requires Inv(c, s) && i < |s.rows| && RowOk(c, i, r)
    requires r.tokens == s.rows[i].tokens && r.secret == s.rows[i].secret && r.owner == s.rows[i].owner
    requires r.state.Active? <==> s.rows[i].state.Active?
    ensures Inv(c, Update(s, i, r))
  {
    SameTokens(s, Update(s, i, r), i);
    TokenStep(c, s, Update(s, i, r), i) by { hide RowOk, TokensAgree, SecretsAgree, DevicesAgree, IndexFollows; }
  }

  lemma SameTokens(s: Server, t: Server, i: RowId)
    requires TokensAgree(s) && i < |s.rows| == |t.rows| && t.rows[i].tokens == s.rows[i].tokens && t.byToken == s.byToken
    ensures IndexFollows(s, t, i)
  {
    hide Hashes;
  }

  lemma ExpireStep(c: Config, s: Server, i: RowId, now: int)
    requires Inv(c, s) && i < |s.rows|
    ensures Inv(c, Expire(s, i, now)) && AllProgress(s, Expire(s, i, now))
    ensures Expire(s, i, now).rows[i].tokens == s.rows[i].tokens && |Expire(s, i, now).rows| == |s.rows|
    ensures Expire(s, i, now).byToken == s.byToken && Expire(s, i, now).bySecret == s.bySecret
  {
    hide TokensAgree, SecretsAgree, DevicesAgree, DistinctHashes;
    var t := Expire(s, i, now);
    if t != s { RowStep(c, s, i, t.rows[i]); }
  }

  lemma CountFailureStep(c: Config, s: Server, i: RowId, now: int)
    requires Inv(c, s) && i < |s.rows|
    ensures Inv(c, CountFailure(c, s, i, now)) && AllProgress(s, CountFailure(c, s, i, now))
  {
    hide TokensAgree, SecretsAgree, DevicesAgree;
    var s1, t := Expire(s, i, now), CountFailure(c, s, i, now);
    ExpireStep(c, s, i, now);
    if t != s && t != s1 { RowStep(c, s1, i, t.rows[i]); }
  }

  lemma BurnStep(c: Config, s: Server, i: RowId)
    requires Inv(c, s) && i < |s.rows| && s.rows[i].state.Issued?
    ensures var t := Update(s, i, s.rows[i].(state := Burned)); Inv(c, t) && AllProgress(s, t)
  {
    RowStep(c, s, i, s.rows[i].(state := Burned)) by { hide TokensAgree, SecretsAgree, DevicesAgree; }
  }

  // ---- tokens ----

  lemma HashesConcat(a: seq<PollToken>, b: seq<PollToken>)
    ensures Hashes(a + b) == Hashes(a) + Hashes(b)
  {
    hide Hashes;
  }

  lemma InEither(s: seq<Hash>, t: seq<Hash>, u: seq<Hash>, v: seq<Hash>)
    requires s + t == u + v
    ensures forall h :: h in s || h in t <==> h in u || h in v
  {
    forall h ensures h in s || h in t <==> h in u || h in v {
      assert h in s + t <==> h in s || h in t;
      assert h in u + v <==> h in u || h in v;
    }
  }

  /** The tokens that stay and the ones that go share no hash. */
  lemma EvictionFacts(r: Row, t: PollToken, cap: nat)
    requires DistinctHashes(r.tokens) && !Holds(r, t.hash)
    ensures var all := r.tokens + [t];
            var kept, gone := Newest(all, cap), Evicted(all, cap);
            && DistinctHashes(kept) && |kept| <= cap
            && (forall x :: x in kept ==> x in r.tokens || x == t)
            && (forall h :: h in Hashes(kept) <==> (Holds(r, h) || h == t.hash) && h !in Hashes(gone))
  {
    var all := r.tokens + [t];
    var kept, gone := Newest(all, cap), Evicted(all, cap);
    hide Hashes;
    HashesConcat(r.tokens, [t]);
    assert all == gone + kept;
    HashesConcat(gone, kept);
    AddedDistinct(r.tokens, t);
    SplitDistinct(gone, kept);
    assert Hashes([t]) == [t.hash];
    hide DistinctHashes, Newest, Evicted;
    InEither(Hashes(r.tokens), [t.hash], Hashes(gone), Hashes(kept));
  }

  lemma AddedDistinct(tokens: seq<PollToken>, t: PollToken)
    requires DistinctHashes(tokens) && t.hash !in Hashes(tokens)
    ensures DistinctHashes(tokens + [t])
  {
    hide Hashes;
    forall k | 0 <= k < |tokens| ensures tokens[k].hash != t.hash { assert Hashes(tokens)[k] == tokens[k].hash; }
  }

  lemma SplitDistinct(gone: seq<PollToken>, kept: seq<PollToken>)
    requires DistinctHashes(gone + kept)
    ensures DistinctHashes(kept) && forall h :: h in Hashes(gone) ==> h !in Hashes(kept)
  {
    hide Hashes;
    var all := gone + kept;
    forall j, k | 0 <= j < |gone| && 0 <= k < |kept| ensures Hashes(gone)[j] != Hashes(kept)[k] {
      assert all[j] == gone[j] && all[|gone| + k] == kept[k];
    }
    forall j, k | 0 <= j < k < |kept| ensures kept[j].hash != kept[k].hash {
      assert all[|gone| + j] == kept[j] && all[|gone| + k] == kept[k];
    }
  }

  /** A fresh token for the winner; on an issued row it comes with the win. */
  lemma MintTokenStep(c: Config, s: Server, i: RowId, t: PollToken, r: Row)
    requires Inv(c, s) && i < |s.rows| && t.hash !in s.byToken
    requires r == MintToken(c, s, i, t).rows[i].(state := r.state, winner := Some(t.key))
    requires s.rows[i].state.Issued? || s.rows[i].winner == Some(t.key)
    requires r.state == if s.rows[i].state.Issued? then Pending else s.rows[i].state
    ensures Inv(c, Update(MintToken(c, s, i, t), i, r)) && AllProgress(s, Update(MintToken(c, s, i, t), i, r))
  {
    hide SetOf;
    var u := Update(MintToken(c, s, i, t), i, r);
    MintedRow(c, s, i, t, r);
    MintedIndex(c, s, u, i, t);
    assert forall j :: 0 <= j < |s.rows| && j != i ==> u.rows[j] == s.rows[j];
    hide Hashes, RowOk, TokensAgree, SecretsAgree, DevicesAgree, IndexFollows, DistinctHashes, Newest, Evicted;
    TokenStep(c, s, u, i);
  }

  lemma NotHeld(s: Server, i: RowId, h: Hash)
    requires TokensAgree(s) && i < |s.rows| && h !in s.byToken
    ensures !Holds(s.rows[i], h)
  {
    hide Hashes;
  }

  lemma MintedRow(c: Config, s: Server, i: RowId, t: PollToken, r: Row)
    requires Inv(c, s) && i < |s.rows| && t.hash !in s.byToken
    requires r == MintToken(c, s, i, t).rows[i].(state := r.state, winner := Some(t.key))
    requires s.rows[i].state.Issued? || s.rows[i].winner == Some(t.key)
    requires r.state == if s.rows[i].state.Issued? then Pending else s.rows[i].state
    ensures RowOk(c, i, r) && !Holds(s.rows[i], t.hash) && DistinctHashes(s.rows[i].tokens)
  {
    hide Hashes, TokensAgree, SecretsAgree, DevicesAgree, DistinctHashes, Newest, Evicted;
    NotHeld(s, i, t.hash);
    assert RowOk(c, i, s.rows[i]);
    EvictionFacts(s.rows[i], t, c.pollTokenCap);
  }

  lemma MintedIndex(c: Config, s: Server, u: Server, i: RowId, t: PollToken)
    requires TokensAgree(s) && i < |s.rows| == |u.rows| && t.hash !in s.byToken && !Holds(s.rows[i], t.hash)
    requires DistinctHashes(s.rows[i].tokens)
    requires u.rows[i].tokens == Newest(s.rows[i].tokens + [t], c.pollTokenCap)
    requires u.byToken == s.byToken[t.hash := i] - SetOf(Hashes(Evicted(s.rows[i].tokens + [t], c.pollTokenCap)))
    ensures IndexFollows(s, u, i)
  {
    hide SetOf;
    var all := s.rows[i].tokens + [t];
    var gone, kept := Evicted(all, c.pollTokenCap), Newest(all, c.pollTokenCap);
    EvictionFacts(s.rows[i], t, c.pollTokenCap);
    assert all == gone + kept;
    hide Hashes, DistinctHashes, Newest, Evicted;
    HashesConcat(gone, kept);
    HashesConcat(s.rows[i].tokens, [t]);
    assert Hashes([t]) == [t.hash];
    forall h | h in Hashes(gone) ensures Holds(s.rows[i], h) || h == t.hash { assert h in Hashes(all); }
    FollowMint(s, u, i, t.hash, Hashes(gone));
  }

  lemma FollowMint(s: Server, u: Server, i: RowId, h: Hash, gone: seq<Hash>)
    requires TokensAgree(s) && i < |s.rows| == |u.rows| && h !in s.byToken
    requires forall x :: x in gone ==> Holds(s.rows[i], x) || x == h
    requires forall x :: Holds(u.rows[i], x) <==> (Holds(s.rows[i], x) || x == h) && x !in gone
    requires u.byToken == s.byToken[h := i] - SetOf(gone)
    ensures IndexFollows(s, u, i)
  {
    hide Hashes;
  }

  lemma WithoutParts(tokens: seq<PollToken>, h: Hash)
    requires tokens != []
    ensures var w, last := Without(tokens[..|tokens| - 1], h), tokens[|tokens| - 1];
            Without(tokens, h) == if last.hash == h then w else w + [last]
  {
  }

  lemma {:induction false} WithoutFacts(tokens: seq<PollToken>, h: Hash)
    requires DistinctHashes(tokens)
    ensures DistinctHashes(Without(tokens, h))
    ensures forall x :: x in Hashes(Without(tokens, h)) <==> x in Hashes(tokens) && x != h
  {
    hide Hashes;
    if tokens != [] {
      var init, last := tokens[..|tokens| - 1], tokens[|tokens| - 1];
      assert tokens == init + [last];
      SplitDistinct(init, [last]);
      assert DistinctHashes(init);
      WithoutParts(tokens, h);
      hide Without, DistinctHashes;
      WithoutFacts(init, h);
      WithoutLast(init, Without(init, h), last, h);
    }
  }

  lemma WithoutLast(init: seq<PollToken>, w: seq<PollToken>, last: PollToken, h: Hash)
    requires DistinctHashes(w) && last.hash !in Hashes(init)
    requires forall x :: x in Hashes(w) <==> x in Hashes(init) && x != h
    ensures var r := if last.hash == h then w else w + [last];
            DistinctHashes(r) && forall x :: x in Hashes(r) <==> x in Hashes(init + [last]) && x != h
  {
    hide Hashes;
    if last.hash != h { AddedDistinct(w, last); }
    HashesConcat(init, [last]);
    HashesConcat(w, [last]);
    assert Hashes([last]) == [last.hash];
    hide DistinctHashes;
  }

  lemma RemoveTokenStep(c: Config, s: Server, i: RowId, h: Hash)
    requires Inv(c, s) && i < |s.rows| && h in s.byToken && s.byToken[h] == i
    ensures Inv(c, RemoveToken(s, i, h)) && AllProgress(s, RemoveToken(s, i, h))
  {
    hide Hashes, RowOk, TokensAgree, SecretsAgree, DevicesAgree, IndexFollows, DistinctHashes, Without;
    var t := RemoveToken(s, i, h);
    RemovedRow(c, s, i, h);
    RemovedIndex(s, t, i, h);
    TokenStep(c, s, t, i);
  }

  lemma RemovedRow(c: Config, s: Server, i: RowId, h: Hash)
    requires i < |s.rows| && RowOk(c, i, s.rows[i])
    ensures var r := RemoveToken(s, i, h).rows[i];
            RowOk(c, i, r) && forall x :: Holds(r, x) <==> Holds(s.rows[i], x) && x != h
  {
    WithoutFacts(s.rows[i].tokens, h);
    hide Hashes, DistinctHashes;
  }

  lemma RemovedIndex(s: Server, t: Server, i: RowId, h: Hash)
    requires TokensAgree(s) && i < |s.rows| == |t.rows| && h in s.byToken && s.byToken[h] == i
    requires forall x :: Holds(t.rows[i], x) <==> Holds(s.rows[i], x) && x != h
    requires t.byToken == s.byToken - {h}
    ensures IndexFollows(s, t, i)
  {
    hide Hashes;
  }

  // ---- activation ----

  lemma ActivateStep(c: Config, s: Server, i: RowId, r: Row)
    requires Inv(c, s) && i < |s.rows| && s.rows[i].state.Pending? && Devices(s, s.rows[i].owner) < c.deviceCap
    requires r == s.rows[i].(state := Active, creds := Some(c.issue(i + 1, s.rows[i].winner.value)))
    ensures var t := Update(s, i, r).(devices := s.devices[r.owner := Devices(s, r.owner) + 1]); Inv(c, t) && AllProgress(s, t)
  {
    hide Holds, ActiveRows;
    var t := Update(s, i, r).(devices := s.devices[r.owner := Devices(s, r.owner) + 1]);
    assert RowOk(c, i, s.rows[i]);
    SameTokens(s, t, i);
    TokensFrame(s, t, i);
    SecretsFrame(s, t, i);
    DevicesFrame(c, s, t, i);
    hide TokensAgree, SecretsAgree, DevicesAgree, IndexFollows, Hashes, Devices;
  }

  lemma ConfirmRowStep(c: Config, s: Server, i: RowId, now: int)
    requires Inv(c, s) && i < |s.rows|
    ensures Inv(c, ConfirmRow(c, s, i, now)) && AllProgress(s, ConfirmRow(c, s, i, now))
    ensures |ConfirmRow(c, s, i, now).rows| == |s.rows|
    ensures ConfirmRow(c, s, i, now).byToken == s.byToken && ConfirmRow(c, s, i, now).rows[i].tokens == s.rows[i].tokens
  {
    hide Inv, RowOk, Progress, Devices;
    var s1 := Expire(s, i, now);
    ExpireStep(c, s, i, now);
    var r := s1.rows[i];
    if r.state.Pending? && r.winner.Some? && Devices(s1, r.owner) < c.deviceCap {
      ActivateStep(c, s1, i, r.(state := Active, creds := Some(c.issue(i + 1, r.winner.value))));
      AllProgressTrans(s, s1, ConfirmRow(c, s, i, now));
    }
  }
}
