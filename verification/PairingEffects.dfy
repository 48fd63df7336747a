/** What a request leaves behind: the whole server after a poll, a confirmation or a
    rejection, and the order in which the secret index lists its secrets. */
module PairingEffects {
  import opened Options
  import opened PairingProtocol
  import opened PairingInvariant
  import opened PairingRuns
  import opened PairingLifetimes

  // ---- taking a token back ----

  /** `after` is `before` without its one token of hash `h`. */
  ghost predicate TakenBack(before: seq<PollToken>, after: seq<PollToken>, h: Hash) {
    exists k :: 0 <= k < |before| && before[k].hash == h && after == before[..k] + before[k + 1..]
  }

  lemma {:induction false} NothingToTake(tokens: seq<PollToken>, h: Hash)
    requires forall t :: t in tokens ==> t.hash != h
    ensures Without(tokens, h) == tokens
  {
    if tokens != [] {
      var init, last := tokens[..|tokens| - 1], tokens[|tokens| - 1];
      WithoutParts(tokens, h);
      hide Without;
      NothingToTake(init, h);
      assert tokens == init + [last] && last in tokens;
    }
  }

  lemma {:induction false} WithoutIsRest(tokens: seq<PollToken>, h: Hash, k: nat)
    requires k < |tokens| && tokens[k].hash == h
    requires forall j :: 0 <= j < |tokens| && j != k ==> tokens[j].hash != h
    ensures Without(tokens, h) == tokens[..k] + tokens[k + 1..]
  {
    hide Without;
    var n := |tokens| - 1;
    WithoutParts(tokens, h);
    if k == n {
      NothingToTake(tokens[..n], h);
      assert tokens[k + 1..] == [];
    } else {
      WithoutIsRest(tokens[..n], h, k);
      RestSnoc(tokens, k);
    }
  }

  lemma RestSnoc(tokens: seq<PollToken>, k: nat)
    requires k < |tokens| - 1
    ensures var n := |tokens| - 1;
            tokens[..n][..k] + tokens[..n][k + 1..] + [tokens[n]] == tokens[..k] + tokens[k + 1..]
  {
  }

  // ---- polls ----

  /** Without auto-confirmation a poll does one of four things: nothing; it takes an
      expired token back; it takes a working one back, for the test hook; or it notes that
      its row has expired. */
  lemma PollEffect(c: Config, s: Server, now: int, presented: Option<Hash>)
    requires Inv(c, s) && Indexed(s) && c.autoConfirm.None?
    ensures var u := DoPoll(c, s, now, presented).server;
            if presented.None? || presented.value !in s.byToken then u == s
            else
              var h, i := presented.value, s.byToken[presented.value];
              var t, row := FindToken(s.rows[i].tokens, h), Seen(s.rows[i], now);
              && i < |u.rows| && t.Some?
              && if t.value.expiresAt <= now then
                   && TakenBack(s.rows[i].tokens, u.rows[i].tokens, h)
                   && u == s.(rows := s.rows[i := s.rows[i].(tokens := u.rows[i].tokens)], byToken := s.byToken - {h})
                 else if row.state != Expired && s.forced < c.forced404s then
                   && TakenBack(s.rows[i].tokens, u.rows[i].tokens, h)
                   && u == s.(rows := s.rows[i := row.(tokens := u.rows[i].tokens)], byToken := s.byToken - {h},
                              forced := s.forced + 1)
                 else u == s.(rows := s.rows[i := row])
  {
    hide Inv, FindToken, Without, TakenBack, Expire, AnswerPoll, RowOk;
    if presented.Some? && presented.value in s.byToken {
      var h, i := presented.value, s.byToken[presented.value];
      FoundToken(c, s, h);
      RowsOk(c, s, i);
      HeldTokens(c, s, i, h);
      ExpireSees(s, i, now);
      var row := Seen(s.rows[i], now);
      WonRow(c, i, s.rows[i]);
      AnswerEffect(c, s.(rows := s.rows[i := row]), i, now, h);
      Twice(s.rows, i, row);
    }
  }

  lemma Twice(rows: seq<Row>, i: RowId, r: Row)
    requires i < |rows|
    ensures rows[i := r][i := r] == rows[i := r] && rows[i := rows[i]] == rows
  {
  }

  lemma WonRow(c: Config, i: RowId, r: Row)
    requires RowOk(c, i, r) && r.winner.Some?
    ensures r.state != Burned && r.state != Issued
  {
  }

  lemma HeldTokens(c: Config, s: Server, i: RowId, h: Hash)
    requires i < |s.rows| && RowOk(c, i, s.rows[i]) && FindToken(s.rows[i].tokens, h).Some?
    ensures TakenBack(s.rows[i].tokens, Without(s.rows[i].tokens, h), h)
  {
    hide Without;
    var tokens := s.rows[i].tokens;
    var t := FindToken(tokens, h).value;
    assert t in tokens && t.hash == h && DistinctHashes(tokens);
    hide FindToken;
    var k :| 0 <= k < |tokens| && tokens[k] == t;
    WithoutIsRest(tokens, h, k);
  }

  lemma AnswerEffect(c: Config, s: Server, i: RowId, now: int, h: Hash)
    requires i < |s.rows| && c.autoConfirm.None?
    ensures AnswerPoll(c, s, i, now, h).server ==
            if s.forced < c.forced404s then
              s.(rows := s.rows[i := s.rows[i].(tokens := Without(s.rows[i].tokens, h))], byToken := s.byToken - {h},
                 forced := s.forced + 1)
            else s
  {
    hide Without;
  }

  /** With the auto-confirm hook set to n, a live poll of a pending row is counted, and
      activates the row if it is the n-th and the owner is below the device cap; with n not
      positive it activates it first and is then not counted. */
  lemma AutoPollEffect(c: Config, s: Server, now: int, h: Hash, i: RowId)
    requires Inv(c, s) && Indexed(s) && LivePending(s, now, h, i) && c.autoConfirm.Some? && c.forced404s <= s.forced
    ensures var u, r, n := DoPoll(c, s, now, Some(h)).server, s.rows[i], c.autoConfirm.value;
            var devices := ActiveRows(s.rows, r.owner);
            var polls := if n <= 0 && devices < c.deviceCap then r.statusPolls else r.statusPolls + 1;
            && r.winner.Some?
            && if devices < c.deviceCap && (n <= 0 || polls >= n) then
                 u == s.(rows := s.rows[i := r.(statusPolls := polls, state := Active,
                                                creds := Some(c.issue(i + 1, r.winner.value)))],
                         devices := s.devices[r.owner := devices + 1])
               else u == s.(rows := s.rows[i := r.(statusPolls := polls)])
  {
    hide Inv, ActiveRows, DoPoll, LivePending, Devices, AnswerPoll;
    LivePendingAnswer(c, s, now, h, i);
    StillInTime(s, now, h, i);
    CountedDevices(c, s, s.rows[i].owner);
    RowsOk(c, s, i);
    assert s.rows[i].winner.Some?;
    AutoAnswerEffect(c, s, i, now, h);
  }

  lemma AutoAnswerEffect(c: Config, s: Server, i: RowId, now: int, h: Hash)
    requires i < |s.rows| && PendingInTime(s.rows[i], now) && s.rows[i].winner.Some?
    requires c.autoConfirm.Some? && c.forced404s <= s.forced
    ensures var u, r, n := AnswerPoll(c, s, i, now, h).server, s.rows[i], c.autoConfirm.value;
            var devices := Devices(s, r.owner);
            var polls := if n <= 0 && devices < c.deviceCap then r.statusPolls else r.statusPolls + 1;
            if devices < c.deviceCap && (n <= 0 || polls >= n) then
              u == s.(rows := s.rows[i := r.(statusPolls := polls, state := Active,
                                             creds := Some(c.issue(i + 1, r.winner.value)))],
                      devices := s.devices[r.owner := devices + 1])
            else u == s.(rows := s.rows[i := r.(statusPolls := polls)])
  {
    hide Devices, ConfirmRow, RemoveToken;
    var r := s.rows[i];
    var polled := r.(statusPolls := r.statusPolls + 1);
    var s2 := Update(s, i, polled);
    ConfirmEffectAt(c, s, i, now);
    ConfirmEffectAt(c, s2, i, now);
    SameDevices(s, s2, r.owner);
    var done := polled.(state := Active, creds := Some(c.issue(i + 1, r.winner.value)));
    assert s.rows[i := polled][i := done] == s.rows[i := done];
    assert s.rows[i := r.(statusPolls := r.statusPolls, state := Active, creds := done.creds)]
        == s.rows[i := r.(state := Active, creds := done.creds)];
  }

  lemma SameDevices(s: Server, t: Server, o: Owner)
    requires s.devices == t.devices
    ensures Devices(s, o) == Devices(t, o)
  {
  }

  lemma ConfirmEffectAt(c: Config, s: Server, i: RowId, now: int)
    requires i < |s.rows| && PendingInTime(s.rows[i], now) && s.rows[i].winner.Some?
    ensures var r := s.rows[i];
            ConfirmRow(c, s, i, now) ==
            if Devices(s, r.owner) < c.deviceCap then
              s.(rows := s.rows[i := r.(state := Active, creds := Some(c.issue(i + 1, r.winner.value)))],
                 devices := s.devices[r.owner := Devices(s, r.owner) + 1])
            else s
  {
    hide Devices;
    ExpireSees(s, i, now);
    assert s.rows[i := s.rows[i]] == s.rows;
    hide Expire;
  }

  // ---- confirming and rejecting ----

  /** One of the first `n` secrets names row `j`. */
  ghost predicate Passed(s: Server, n: nat, j: RowId)
    requires Indexed(s) && n <= |s.secretOrder|
  {
    exists k :: 0 <= k < n && s.bySecret[s.secretOrder[k]] == j
  }

  /** The first `n` secrets name no row that is pending in time. */
  ghost predicate NoneBefore(s: Server, now: int, n: nat)
    requires Indexed(s) && n <= |s.secretOrder|
  {
    forall k :: 0 <= k < n ==> !PendingInTime(s.rows[s.bySecret[s.secretOrder[k]]], now)
  }

  /** The rows that were passed are as seen at the time, the others as they were. */
  ghost predicate Walked(s: Server, rows: seq<Row>, now: int, n: nat)
    requires Indexed(s) && n <= |s.secretOrder|
  {
    && |rows| == |s.rows|
    && forall j :: 0 <= j < |s.rows| ==> rows[j] == if Passed(s, n, j) then Seen(s.rows[j], now) else s.rows[j]
  }

  /** The same, and then row `i` was replaced by `r`. */
  ghost predicate WalkedTo(s: Server, rows: seq<Row>, now: int, n: nat, i: RowId, r: Row)
    requires Indexed(s) && n <= |s.secretOrder| && i < |s.rows|
  {
    |rows| == |s.rows| && rows[i] == r && Walked(s, rows[i := s.rows[i]], now, n)
  }

  /** The walk from the `n`-th secret on. */
  lemma {:induction false} WalkEffect(s: Server, rows: seq<Row>, now: int, n: nat) returns (m: nat)
    requires Indexed(s) && n <= |s.secretOrder| && NoneBefore(s, now, n) && Walked(s, rows, now, n)
    ensures m <= |s.secretOrder| && NoneBefore(s, now, m)
    ensures var p := FirstPending(s.(rows := rows), now, s.secretOrder[n..]);
            && p.0 == s.(rows := p.0.rows) && Walked(s, p.0.rows, now, m)
            && p.1 == if m < |s.secretOrder| then Some(s.bySecret[s.secretOrder[m]]) else None
    ensures m < |s.secretOrder| ==> PendingInTime(s.rows[s.bySecret[s.secretOrder[m]]], now)
    decreases |s.secretOrder| - n
  {
    m := n;
    if n < |s.secretOrder| {
      assert s.secretOrder[n] in s.secretOrder;
      var i := s.bySecret[s.secretOrder[n]];
      var t := s.(rows := rows);
      var row := Seen(rows[i], now);
      ExpireSees(t, i, now);
      WalkOne(s, rows, now, n);
      hide Expire, Passed, PendingInTime, Walked, NoneBefore;
      assert s.secretOrder[n..][0] == s.secretOrder[n] && s.secretOrder[n..][1..] == s.secretOrder[n + 1..];
      assert t.(rows := rows[i := row]) == s.(rows := rows[i := row]);
      if !PendingInTime(s.rows[i], now) {
        m := WalkEffect(s, rows[i := row], now, n + 1);
      } else {
        assert rows[i := row] == rows;
      }
    } else {
      assert s.secretOrder[n..] == [];
    }
  }

  /** One secret further. */
  lemma WalkOne(s: Server, rows: seq<Row>, now: int, n: nat)
    requires Indexed(s) && n < |s.secretOrder| && NoneBefore(s, now, n) && Walked(s, rows, now, n)
    ensures s.secretOrder[n] in s.bySecret
    ensures var i := s.bySecret[s.secretOrder[n]];
            && i < |s.rows| == |rows|
            && (Seen(rows[i], now).state.Pending? <==> PendingInTime(s.rows[i], now))
            && (PendingInTime(s.rows[i], now) ==> Seen(rows[i], now) == rows[i] == s.rows[i])
            && (!PendingInTime(s.rows[i], now) ==>
                  NoneBefore(s, now, n + 1) && Walked(s, rows[i := Seen(rows[i], now)], now, n + 1))
  {
    assert s.secretOrder[n] in s.secretOrder;
    var i := s.bySecret[s.secretOrder[n]];
    forall j | 0 <= j < |s.rows| ensures Passed(s, n + 1, j) <==> Passed(s, n, j) || j == i {
      if j == i { assert s.bySecret[s.secretOrder[n]] == j; }
      if Passed(s, n + 1, j) && j != i {
        var k :| 0 <= k < n + 1 && s.bySecret[s.secretOrder[k]] == j;
        assert k < n;
      }
    }
    hide Passed;
  }

  /** A confirmation or a rejection walks the secrets in their order up to the first row
      that is pending in time, notes what has expired on the way, and changes that row and
      nothing else: a rejection ends it, a confirmation activates it with credentials made
      from its winner and counts the device, below the cap. */
  lemma ConfirmEffect(c: Config, s: Server, now: int) returns (n: nat)
    requires Inv(c, s) && Indexed(s)
    ensures n <= |s.secretOrder| && NoneBefore(s, now, n)
    ensures var t, u := DoConfirm(c, s, now).server, DoReject(s, now);
            && t == s.(rows := t.rows, devices := t.devices) && u == s.(rows := u.rows)
            && if n == |s.secretOrder| then t == u && Walked(s, u.rows, now, n)
               else
                 var i := s.bySecret[s.secretOrder[n]];
                 var r := s.rows[i];
                 var count := ActiveRows(s.rows, r.owner);
                 && PendingInTime(r, now) && r.winner.Some?
                 && WalkedTo(s, u.rows, now, n, i, r.(state := Rejected))
                 && (if count < c.deviceCap then
                       && WalkedTo(s, t.rows, now, n, i, r.(state := Active, creds := Some(c.issue(i + 1, r.winner.value))))
                       && t.devices == s.devices[r.owner := count + 1]
                     else WalkedTo(s, t.rows, now, n, i, r) && t.devices == s.devices)
  {
    assert s.secretOrder[0..] == s.secretOrder && s.(rows := s.rows) == s;
    hide Inv, ActiveRows, ConfirmRow, Devices, FirstPending, WalkedTo;
    n := WalkEffect(s, s.rows, now, 0);
    hide Walked, NoneBefore, Passed;
    if n < |s.secretOrder| { ConfirmFound(c, s, now, n); }
  }

  lemma ConfirmFound(c: Config, s: Server, now: int, n: nat)
    requires Inv(c, s) && Indexed(s) && n < |s.secretOrder| && NoneBefore(s, now, n)
    requires var f, i := FirstPending(s, now, s.secretOrder), s.bySecret[s.secretOrder[n]];
             f.0 == s.(rows := f.0.rows) && Walked(s, f.0.rows, now, n) && f.1 == Some(i) && PendingInTime(s.rows[i], now)
    ensures var t, u := DoConfirm(c, s, now).server, DoReject(s, now);
            var i := s.bySecret[s.secretOrder[n]];
            var r := s.rows[i];
            var count := ActiveRows(s.rows, r.owner);
            && t == s.(rows := t.rows, devices := t.devices) && u == s.(rows := u.rows)
            && r.winner.Some?
            && WalkedTo(s, u.rows, now, n, i, r.(state := Rejected))
            && (if count < c.deviceCap then
                  && WalkedTo(s, t.rows, now, n, i, r.(state := Active, creds := Some(c.issue(i + 1, r.winner.value))))
                  && t.devices == s.devices[r.owner := count + 1]
                else WalkedTo(s, t.rows, now, n, i, r) && t.devices == s.devices)
  {
    hide Inv, ActiveRows, ConfirmRow, Devices, FirstPending, NoneBefore, Walked, WalkedTo, Passed, PendingInTime, RowOk;
    var f, i := FirstPending(s, now, s.secretOrder), s.bySecret[s.secretOrder[n]];
    var r := s.rows[i];
    FoundIsPending(c, s, now, i);
    CountedDevices(c, s, r.owner);
    FoundAsItWas(s, f.0.rows, now, n);
    SameDevices(s, f.0, r.owner);
    ConfirmEffectAt(c, f.0, i, now);
    Replaced(s, f.0.rows, now, n, r);
    Replaced(s, f.0.rows, now, n, r.(state := Rejected));
    Replaced(s, f.0.rows, now, n, r.(state := Active, creds := Some(c.issue(i + 1, r.winner.value))));
  }

  lemma FoundIsPending(c: Config, s: Server, now: int, i: RowId)
    requires Inv(c, s) && i < |s.rows| && PendingInTime(s.rows[i], now)
    ensures s.rows[i].winner.Some?
  {
    RowsOk(c, s, i);
  }

  lemma FoundAsItWas(s: Server, rows: seq<Row>, now: int, n: nat)
    requires Indexed(s) && n < |s.secretOrder| && NoneBefore(s, now, n) && Walked(s, rows, now, n)
    requires PendingInTime(s.rows[s.bySecret[s.secretOrder[n]]], now)
    ensures |rows| == |s.rows| && rows[s.bySecret[s.secretOrder[n]]] == s.rows[s.bySecret[s.secretOrder[n]]]
  {
    assert s.secretOrder[n] in s.secretOrder;
    NotPassed(s, now, n);
    hide Passed;
  }

  lemma Replaced(s: Server, rows: seq<Row>, now: int, n: nat, r: Row)
    requires Indexed(s) && n < |s.secretOrder| && Walked(s, rows, now, n)
    requires |rows| == |s.rows| && rows[s.bySecret[s.secretOrder[n]]] == s.rows[s.bySecret[s.secretOrder[n]]]
    ensures var i := s.bySecret[s.secretOrder[n]];
            WalkedTo(s, rows[i := r], now, n, i, r) && WalkedTo(s, rows, now, n, i, s.rows[i])
  {
    var i := s.bySecret[s.secretOrder[n]];
    assert s.secretOrder[n] in s.secretOrder;
    assert rows[i := r][i := s.rows[i]] == rows && rows[i := s.rows[i]] == rows;
    hide Walked;
  }

  lemma NotPassed(s: Server, now: int, n: nat)
    requires Indexed(s) && n < |s.secretOrder| && NoneBefore(s, now, n)
    requires PendingInTime(s.rows[s.bySecret[s.secretOrder[n]]], now)
    ensures !Passed(s, n, s.bySecret[s.secretOrder[n]])
  {
    hide PendingInTime;
  }

  // ---- the secret index ----

  ghost predicate Mints(q: Request, h: Hash) {
    q.Mint? && q.secret == h
  }

  ghost predicate MintedIn(steps: seq<Step>, h: Hash) {
    exists j :: 0 <= j < |steps| && Mints(steps[j].request, h)
  }

  /** The minted secrets, each where it was minted first. */
  ghost function FirstMints(steps: seq<Step>): seq<Hash> {
    if steps == [] then []
    else
      var init, q := steps[..|steps| - 1], steps[|steps| - 1].request;
      FirstMints(init) + if q.Mint? && !MintedIn(init, q.secret) then [q.secret] else []
  }

  /** The row named by a secret is the newest one minted under it. */
  ghost predicate NamesNewest(s: Server) {
    && (forall h :: h in s.bySecret ==> s.bySecret[h] < |s.rows| && s.rows[s.bySecret[h]].secret == h)
    && (forall h, i :: h in s.bySecret && s.bySecret[h] < i < |s.rows| ==> s.rows[i].secret != h)
    && (forall i :: 0 <= i < |s.rows| ==> s.rows[i].secret in s.bySecret)
  }

  ghost predicate SecretsTold(s: Server, steps: seq<Step>) {
    && s.secretOrder == FirstMints(steps)
    && (forall h :: h in s.bySecret <==> MintedIn(steps, h))
    && NamesNewest(s)
  }

  ghost predicate SameSecrets(s: Server, t: Server) {
    && t.bySecret == s.bySecret && t.secretOrder == s.secretOrder && |t.rows| == |s.rows|
    && forall i :: 0 <= i < |s.rows| ==> t.rows[i].secret == s.rows[i].secret
  }

  lemma OthersKeepSecrets(c: Config, s: Server, now: int, q: Request)
    requires Inv(c, s) && Indexed(s) && !q.Mint?
    ensures SameSecrets(s, React(c, s, now, q).server)
  {
    hide Inv;
    match q {
      case Complete(body, token) => CompleteKeepsSecrets(c, s, now, body, token);
      case Poll(presented) => PollKeepsSecrets(c, s, now, presented);
      case _ =>
        hide DoConfirm, DoReject;
        WalkKeepsSecrets(c, s, now);
    }
  }

  lemma WalkKeepsSecrets(c: Config, s: Server, now: int)
    requires Inv(c, s) && Indexed(s)
    ensures SameSecrets(s, DoConfirm(c, s, now).server) && SameSecrets(s, DoReject(s, now))
  {
    hide Inv, DoConfirm, DoReject, Passed, NoneBefore, ActiveRows;
    var n := ConfirmEffect(c, s, now);
  }

  lemma CompleteKeepsSecrets(c: Config, s: Server, now: int, body: Option<Completion>, token: Hash)
    requires Indexed(s)
    ensures SameSecrets(s, DoComplete(c, s, now, body, token).server)
  {
    hide Newest, Evicted, Hashes;
  }

  lemma PollKeepsSecrets(c: Config, s: Server, now: int, presented: Option<Hash>)
    requires Indexed(s)
    ensures SameSecrets(s, DoPoll(c, s, now, presented).server)
  {
    hide RemoveToken, FindToken, ConfirmRow, Expire;
    if presented.Some? && presented.value in s.byToken {
      var h, i := presented.value, s.byToken[presented.value];
      RowKeepsSecrets(s, i, now, h);
      RowKeepsSecrets(Expire(s, i, now), i, now, h);
      AnswerKeepsSecrets(c, Expire(s, i, now), i, now, h);
    }
  }

  lemma RowKeepsSecrets(s: Server, i: RowId, now: int, h: Hash)
    requires i < |s.rows|
    ensures SameSecrets(s, Expire(s, i, now)) && SameSecrets(s, RemoveToken(s, i, h))
  {
    hide Without;
  }

  lemma ConfirmKeepsSecrets(c: Config, s: Server, i: RowId, now: int)
    requires i < |s.rows|
    ensures SameSecrets(s, ConfirmRow(c, s, i, now))
  {
    hide Devices;
  }

  lemma AnswerKeepsSecrets(c: Config, s: Server, i: RowId, now: int, h: Hash)
    requires i < |s.rows|
    ensures SameSecrets(s, AnswerPoll(c, s, i, now, h).server)
  {
    hide RemoveToken, ConfirmRow;
    ConfirmKeepsSecrets(c, s, i, now);
    var auto := c.autoConfirm;
    var s1 := if s.rows[i].state.Pending? && auto.Some? && auto.value <= 0 then ConfirmRow(c, s, i, now) else s;
    RowKeepsSecrets(s1.(forced := s1.forced + 1), i, now, h);
    var s2 := Update(s1, i, s1.rows[i].(statusPolls := s1.rows[i].statusPolls + 1));
    ConfirmKeepsSecrets(c, s2, i, now);
  }

  lemma MintTellsSecret(s: Server, steps: seq<Step>, last: Step)
    requires SecretsTold(s, steps) && last.request.Mint?
    ensures SecretsTold(DoMint(s, last.now, last.request), steps + [last])
  {
    var t, h := DoMint(s, last.now, last.request), last.request.secret;
    MintedSnoc(steps, last);
    hide MintedIn, FirstMints;
  }

  lemma MintedSnoc(steps: seq<Step>, last: Step)
    ensures forall h :: MintedIn(steps + [last], h) <==> MintedIn(steps, h) || Mints(last.request, h)
    ensures FirstMints(steps + [last]) ==
            FirstMints(steps) + if last.request.Mint? && !MintedIn(steps, last.request.secret) then [last.request.secret] else []
  {
    var all := steps + [last];
    assert all[..|steps|] == steps;
    forall h ensures MintedIn(all, h) <==> MintedIn(steps, h) || Mints(last.request, h) {
      if MintedIn(steps, h) {
        var j :| 0 <= j < |steps| && Mints(steps[j].request, h);
        assert all[j] == steps[j];
      }
      if Mints(last.request, h) { assert Mints(all[|steps|].request, h); }
      if MintedIn(all, h) {
        var j :| 0 <= j < |all| && Mints(all[j].request, h);
        if j < |steps| { assert steps[j] == all[j]; }
      }
    }
  }

  lemma OtherTellsSecret(s: Server, t: Server, steps: seq<Step>, last: Step)
    requires SecretsTold(s, steps) && SameSecrets(s, t) && !last.request.Mint?
    ensures SecretsTold(t, steps + [last])
  {
    MintedSnoc(steps, last);
    hide MintedIn, FirstMints;
  }

  /** Over every run the secret index knows exactly the minted secrets, walks them in the
      order in which they were minted first, and names the newest row of each. */
  lemma {:induction false} SecretsInMintOrder(c: Config, steps: seq<Step>)
    requires Possible(c, steps)
    ensures SecretsTold(After(c, steps), steps)
  {
    if steps != [] {
      var init, last := steps[..|steps| - 1], steps[|steps| - 1];
      assert steps == init + [last];
      SecretsInMintOrder(c, init);
      InvAlways(c, init);
      var s := After(c, init);
      if last.request.Mint? {
        MintTellsSecret(s, init, last);
      } else {
        OthersKeepSecrets(c, s, last.now, last.request);
        OtherTellsSecret(s, React(c, s, last.now, last.request).server, init, last);
      }
      hide Inv, Indexed, SecretsTold, DoMint, DoComplete, DoPoll, DoConfirm, DoReject;
    } else {
      assert FirstMints([]) == [];
    }
  }
}
