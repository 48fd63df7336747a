/** The life of a pairing row, told from the requests: how it comes to be, who wins it and
    until when, and what a confirmation does. */
module PairingLifetimes {
  import opened Options
  import opened PairingProtocol
  import opened PairingInvariant
  import opened PairingRuns

  // ---- minting ----

  /** A minted row is found under its secret, is nobody's, and can be won until a whole
      second no later than its lifetime asks for, less than a second earlier. */
  lemma MintedRow(c: Config, s: Server, now: int, q: Request)
    requires Inv(c, s) && q.Mint?
    ensures var t, n := DoMint(s, now, q), |s.rows|;
            && |t.rows| == n + 1 && t.rows[..n] == s.rows
            && q.secret in t.bySecret && t.bySecret[q.secret] == n
            && (forall h :: h in s.bySecret && h != q.secret ==> h in t.bySecret && t.bySecret[h] == s.bySecret[h])
            && t.byToken == s.byToken && t.devices == s.devices && t.registered == s.registered
            && var r := t.rows[n];
               && r.state == Issued && r.winner.None? && r.owner == q.owner && r.attempts == 0 && r.tokens == []
               && r.secret == q.secret && r.statusPolls == 0 && r.creds.None?
               && r.tokenExp % 1000 == 0 && r.tokenExp <= now + q.tokenTtl < r.tokenExp + 1000
               && r.pendingExp == now + q.pendingTtl
  {
    hide Inv;
  }

  // ---- winning ----

  /** The row and the key that a request makes a winner: a completion that names the row
      by its secret and proves possession of the key, while the row is issued and before
      its deadline. */
  ghost function Winning(c: Config, s: Server, now: int, q: Request): Option<(RowId, Key)>
    requires Indexed(s)
  {
    if !q.Complete? || q.body.None? || q.body.value.secret !in s.bySecret then None
    else
      var m, i := q.body.value, s.bySecret[q.body.value.secret];
      if m.popOk && !m.refused && s.rows[i].state.Issued? && now < s.rows[i].tokenExp && 0 < c.attemptCap
      then Some((i, m.key)) else None
  }

  /** Winners and registered keys after a request that makes `won` the winner. */
  ghost predicate Winners(s: Server, t: Server, won: Option<(RowId, Key)>) {
    && |s.rows| <= |t.rows|
    && (forall i :: 0 <= i < |s.rows| ==>
          t.rows[i].winner == if won.Some? && won.value.0 == i then Some(won.value.1) else s.rows[i].winner)
    && (forall i :: |s.rows| <= i < |t.rows| ==> t.rows[i].winner.None?)
    && t.registered == s.registered + if won.Some? then [won.value.1] else []
  }

  ghost predicate SameWinners(s: Server, t: Server) {
    |t.rows| == |s.rows| && Winners(s, t, None)
  }

  lemma ExpireKeepsWinners(s: Server, i: RowId, now: int)
    requires i < |s.rows|
    ensures SameWinners(s, Expire(s, i, now)) && Expire(s, i, now).bySecret == s.bySecret
  {
  }

  lemma ConfirmKeepsWinners(c: Config, s: Server, i: RowId, now: int)
    requires i < |s.rows|
    ensures SameWinners(s, ConfirmRow(c, s, i, now))
  {
  }

  lemma MintTokenKeepsWinners(c: Config, s: Server, i: RowId, t: PollToken)
    requires i < |s.rows|
    ensures SameWinners(s, MintToken(c, s, i, t))
  {
    hide Newest, Evicted, Hashes;
  }

  lemma RemoveKeepsWinners(s: Server, i: RowId, h: Hash, n: nat)
    requires i < |s.rows|
    ensures SameWinners(s, RemoveToken(s.(forced := n), i, h)) && SameWinners(s, RemoveToken(s, i, h))
  {
  }

  lemma CountFailureKeepsWinners(c: Config, s: Server, i: RowId, now: int)
    requires i < |s.rows|
    ensures SameWinners(s, CountFailure(c, s, i, now))
  {
  }

  lemma WinSetsWinner(c: Config, s: Server, i: RowId, now: int, key: Key, token: Hash)
    requires i < |s.rows|
    ensures Winners(s, Win(c, s, i, now, key, token), Some((i, key)))
    ensures |Win(c, s, i, now, key, token).rows| == |s.rows|
  {
    MintTokenKeepsWinners(c, s, i, PollToken(token, now, s.rows[i].pendingExp, key));
    hide MintToken;
  }

  lemma Then(s: Server, u: Server, t: Server, won: Option<(RowId, Key)>)
    requires SameWinners(s, u) && Winners(u, t, won)
    ensures Winners(s, t, won)
  {
  }

  lemma ExpiredToWin(c: Config, s: Server, i: RowId, now: int)
    requires i < |s.rows| && RowOk(c, i, s.rows[i])
    ensures var r := Expire(s, i, now).rows[i];
            && (r.state.Issued? <==> s.rows[i].state.Issued? && now < s.rows[i].tokenExp)
            && (r.state.Issued? && 0 < c.attemptCap ==> r.attempts < c.attemptCap)
            && (r.attempts >= c.attemptCap && r.state.Issued? ==> c.attemptCap == 0)
  {
  }

  lemma BurnKeepsWinners(s: Server, i: RowId)
    requires i < |s.rows|
    ensures SameWinners(s, s) && SameWinners(s, Update(s, i, s.rows[i].(state := Burned)))
  {
  }

  lemma CompleteWinners(c: Config, s: Server, now: int, body: Option<Completion>, token: Hash)
    requires Inv(c, s) && Indexed(s)
    ensures Winners(s, DoComplete(c, s, now, body, token).server, Winning(c, s, now, Complete(body, token)))
  {
    hide Inv, Expire, MintToken, Win, CountFailure, Winners, Update;
    if body.Some? && body.value.secret in s.bySecret {
      var m, i := body.value, s.bySecret[body.value.secret];
      var s1 := Expire(s, i, now);
      ExpireKeepsWinners(s, i, now);
      var r := s1.rows[i];
      ExpiredToWin(c, s, i, now) by { RowsOk(c, s, i); }
      CountFailureKeepsWinners(c, s1, i, now);
      BurnKeepsWinners(s1, i);
      WinSetsWinner(c, s1, i, now, m.key, token);
      var expiresAt := if r.state.Active? then now + c.activeTokenTtl else r.pendingExp;
      MintTokenKeepsWinners(c, s1, i, PollToken(token, now, expiresAt, m.key));
      Then(s, s1, DoComplete(c, s, now, body, token).server, Winning(c, s, now, Complete(body, token)));
    } else {
      NoWinners(s);
    }
  }

  lemma NoWinners(s: Server)
    ensures Winners(s, s, None)
  {
  }

  lemma RowsOk(c: Config, s: Server, i: RowId)
    requires Inv(c, s) && i < |s.rows|
    ensures RowOk(c, i, s.rows[i])
  {
  }

  lemma AnswerKeepsWinners(c: Config, s: Server, i: RowId, now: int, token: Hash)
    requires i < |s.rows|
    ensures SameWinners(s, AnswerPoll(c, s, i, now, token).server)
  {
    hide ConfirmRow, RemoveToken;
    ConfirmKeepsWinners(c, s, i, now);
    var auto := c.autoConfirm;
    var s1 := if s.rows[i].state.Pending? && auto.Some? && auto.value <= 0 then ConfirmRow(c, s, i, now) else s;
    RemoveKeepsWinners(s1, i, token, s1.forced + 1);
    var s2 := Update(s1, i, s1.rows[i].(statusPolls := s1.rows[i].statusPolls + 1));
    ConfirmKeepsWinners(c, s2, i, now);
    assert SameWinners(s1, s2);
  }

  lemma PollKeepsWinners(c: Config, s: Server, now: int, token: Option<Hash>)
    requires Indexed(s)
    ensures SameWinners(s, DoPoll(c, s, now, token).server)
  {
    hide AnswerPoll, Expire, RemoveToken;
    if token.Some? && token.value in s.byToken {
      var i := s.byToken[token.value];
      ExpireKeepsWinners(s, i, now);
      RemoveKeepsWinners(s, i, token.value, 0);
      AnswerKeepsWinners(c, Expire(s, i, now), i, now, token.value);
    }
  }

  lemma {:induction false} FirstPendingKeepsWinners(s: Server, now: int, order: seq<Hash>)
    requires forall h :: h in order ==> h in s.bySecret && s.bySecret[h] < |s.rows|
    ensures SameWinners(s, FirstPending(s, now, order).0)
    decreases |order|
  {
    if order != [] {
      ExpireKeepsWinners(s, s.bySecret[order[0]], now);
      FirstPendingKeepsWinners(Expire(s, s.bySecret[order[0]], now), now, order[1..]);
      hide Expire;
    }
  }

  /** One request: the first valid completion in time makes its key the winner of the
      row it names and registers it; nothing else ever makes or changes a winner. */
  lemma WinnersChangeIff(c: Config, s: Server, now: int, q: Request)
    requires Inv(c, s) && Indexed(s)
    ensures Winners(s, React(c, s, now, q).server, Winning(c, s, now, q))
  {
    hide Inv, DoComplete, DoPoll, FirstPending, ConfirmRow;
    match q
    case Mint(_, _, _, _) =>
    case Complete(body, token) => CompleteWinners(c, s, now, body, token);
    case Poll(presented) => PollKeepsWinners(c, s, now, presented);
    case Confirm =>
      FirstPendingKeepsWinners(s, now, s.secretOrder);
      var (s1, i) := FirstPending(s, now, s.secretOrder);
      if i.Some? && i.value < |s1.rows| { ConfirmKeepsWinners(c, s1, i.value, now); }
    case Reject =>
      FirstPendingKeepsWinners(s, now, s.secretOrder);
  }

  // ---- over whole runs ----

  /** The winning completions of a run, in order. */
  ghost function Wins(c: Config, steps: seq<Step>): seq<(RowId, Key)> {
    if steps == [] then []
    else
      var s, last := After(c, steps[..|steps| - 1]), steps[|steps| - 1];
      Wins(c, steps[..|steps| - 1])
      + if Indexed(s) && Winning(c, s, last.now, last.request).Some?
        then [Winning(c, s, last.now, last.request).value] else []
  }

  /** Row `i` was won by `key` in one of these. */
  ghost predicate WonIn(wins: seq<(RowId, Key)>, i: RowId, key: Key) {
    exists j :: 0 <= j < |wins| && wins[j] == (i, key)
  }

  ghost predicate Story(s: Server, wins: seq<(RowId, Key)>) {
    && |s.registered| == |wins|
    && (forall j :: 0 <= j < |wins| ==>
          s.registered[j] == wins[j].1 && wins[j].0 < |s.rows| && s.rows[wins[j].0].winner == Some(wins[j].1))
    && (forall i :: 0 <= i < |s.rows| && s.rows[i].winner.Some? ==> WonIn(wins, i, s.rows[i].winner.value))
    && (forall j, k :: 0 <= j < k < |wins| ==> wins[j].0 != wins[k].0)
  }

  lemma StoryStep(s: Server, t: Server, wins: seq<(RowId, Key)>, won: Option<(RowId, Key)>)
    requires Story(s, wins) && Winners(s, t, won)
    requires won.Some? ==> won.value.0 < |s.rows| && s.rows[won.value.0].winner.None?
    ensures Story(t, wins + if won.Some? then [won.value] else [])
  {
    var more := wins + if won.Some? then [won.value] else [];
    forall i | 0 <= i < |t.rows| && t.rows[i].winner.Some? ensures WonIn(more, i, t.rows[i].winner.value) {
      if won.Some? && won.value.0 == i {
        assert more[|wins|] == won.value;
      } else {
        var j :| 0 <= j < |wins| && wins[j] == (i, s.rows[i].winner.value);
        assert more[j] == wins[j];
      }
    }
  }

  /** Winner takes all, over every run: each row is won at most once, by the first valid
      completion in time, which is still its winner; and the registered keys are those
      of the winning completions, in order. */
  lemma {:induction false} WinnerTakesAll(c: Config, steps: seq<Step>)
    requires Possible(c, steps)
    ensures Story(After(c, steps), Wins(c, steps))
  {
    if steps != [] {
      var init, last := steps[..|steps| - 1], steps[|steps| - 1];
      var s := After(c, init);
      WinnerTakesAll(c, init);
      InvAlways(c, init);
      WinnersChangeIff(c, s, last.now, last.request);
      var won := Winning(c, s, last.now, last.request);
      if won.Some? { assert RowOk(c, won.value.0, s.rows[won.value.0]); }
      hide Inv, Indexed, React, Story, Winners, RowOk;
      StoryStep(s, After(c, steps), Wins(c, init), won);
    }
  }

  // ---- failed attempts ----

  ghost predicate WithinCap(c: Config, steps: seq<Step>) {
    Possible(c, steps) ==>
      forall i :: 0 <= i < |After(c, steps).rows| ==> After(c, steps).rows[i].attempts <= c.attemptCap
  }

  /** Failed attempts stay within the cap in every reachable state exactly when the cap is
      positive: with a cap of zero the first failure is still counted before the row
      burns. */
  lemma AttemptsWithinCapIff(c: Config)
    ensures (forall steps: seq<Step> :: WithinCap(c, steps)) <==> 0 < c.attemptCap
  {
    if c.attemptCap == 0 {
      var steps := CapZeroExceeded(c);
      assert !WithinCap(c, steps);
    } else {
      forall steps: seq<Step> ensures WithinCap(c, steps) {
        if Possible(c, steps) {
          InvAlways(c, steps);
          forall i | 0 <= i < |After(c, steps).rows| ensures After(c, steps).rows[i].attempts <= c.attemptCap {
            RowsOk(c, After(c, steps), i);
          }
        }
      }
    }
  }

  /** One row, and one completion whose proof fails. */
  lemma CapZeroExceeded(c: Config) returns (steps: seq<Step>)
    requires c.attemptCap == 0
    ensures Possible(c, steps) && |After(c, steps).rows| == 1 && After(c, steps).rows[0].attempts == 1
    ensures After(c, steps).rows[0].state == Burned
  {
    var mint := Step(0, Mint(7, Owner("acme", "user"), 1000, 1000));
    var fail := Step(0, Complete(Some(Completion(7, "key", false, false)), 9));
    assert [mint][..0] == [] && [mint, fail][..1] == [mint];
    assert Possible(c, []) && After(c, []) == EmptyServer;
    assert Indexed(EmptyServer);
    var s := After(c, [mint]);
    assert s == DoMint(EmptyServer, 0, mint.request);
    assert Possible(c, [mint]);
    assert s.bySecret[7] == 0 && Indexed(s);
    steps := [mint, fail];
    assert After(c, steps) == DoComplete(c, s, 0, fail.request.body, 9).server;
  }

  // ---- confirming and rejecting ----

  /** The oldest secret whose row is pending and in time, if any. */
  ghost predicate OldestPending(s: Server, now: int, order: seq<Hash>, found: Option<RowId>)
    requires forall h :: h in order ==> h in s.bySecret && s.bySecret[h] < |s.rows|
  {
    match found
    case Some(i) =>
      exists k :: 0 <= k < |order| && s.bySecret[order[k]] == i && PendingInTime(s.rows[i], now)
                  && forall j :: 0 <= j < k ==> !PendingInTime(s.rows[s.bySecret[order[j]]], now)
    case None => forall j :: 0 <= j < |order| ==> !PendingInTime(s.rows[s.bySecret[order[j]]], now)
  }

  predicate PendingInTime(r: Row, now: int) {
    r.state.Pending? && now < r.pendingExp
  }

  /** Expiry never makes a row pending in time, nor stops it from being so. */
  lemma ExpireKeepsPending(s: Server, i: RowId, now: int)
    requires i < |s.rows|
    ensures var t := Expire(s, i, now);
            && |t.rows| == |s.rows| && t.bySecret == s.bySecret
            && (forall j :: 0 <= j < |s.rows| ==>
                  && (PendingInTime(t.rows[j], now) <==> PendingInTime(s.rows[j], now))
                  && (PendingInTime(s.rows[j], now) ==> t.rows[j] == s.rows[j]))
            && (t.rows[i].state.Pending? <==> PendingInTime(s.rows[i], now))
  {
  }

  lemma {:induction false} FirstPendingIsOldest(s: Server, now: int, order: seq<Hash>)
    requires forall h :: h in order ==> h in s.bySecret && s.bySecret[h] < |s.rows|
    ensures var p := FirstPending(s, now, order);
            && OldestPending(s, now, order, p.1) && |p.0.rows| == |s.rows|
            && (p.1.Some? ==> p.1.value < |s.rows| && p.0.rows[p.1.value] == s.rows[p.1.value])
    decreases |order|
  {
    if order != [] {
      var i := s.bySecret[order[0]];
      var s1 := Expire(s, i, now);
      ExpireKeepsPending(s, i, now);
      hide Expire;
      if !s1.rows[i].state.Pending? {
        FirstPendingIsOldest(s1, now, order[1..]);
        OlderPending(s, s1, now, order, FirstPending(s1, now, order[1..]).1);
      } else {
        assert order[0] in order;
      }
    }
  }

  lemma OlderPending(s: Server, s1: Server, now: int, order: seq<Hash>, found: Option<RowId>)
    requires order != [] && forall h :: h in order ==> h in s.bySecret && s.bySecret[h] < |s.rows|
    requires s1.bySecret == s.bySecret && |s1.rows| == |s.rows|
    requires forall j :: 0 <= j < |s.rows| ==> (PendingInTime(s1.rows[j], now) <==> PendingInTime(s.rows[j], now))
    requires !PendingInTime(s.rows[s.bySecret[order[0]]], now)
    requires OldestPending(s1, now, order[1..], found)
    ensures OldestPending(s, now, order, found)
  {
    hide PendingInTime;
    if found.Some? {
      var k :| 0 <= k < |order[1..]| && s1.bySecret[order[1..][k]] == found.value && PendingInTime(s1.rows[found.value], now)
               && forall j :: 0 <= j < k ==> !PendingInTime(s1.rows[s1.bySecret[order[1..][j]]], now);
      assert order[k + 1] == order[1..][k];
      forall j | 0 <= j < k + 1 ensures !PendingInTime(s.rows[s.bySecret[order[j]]], now) {
        if j > 0 { assert order[j] == order[1..][j - 1]; }
      }
    } else {
      forall j | 0 <= j < |order| ensures !PendingInTime(s.rows[s.bySecret[order[j]]], now) {
        if j > 0 { assert order[j] == order[1..][j - 1]; }
      }
    }
  }

  /** A confirmation is for the oldest row that is pending and in time, and it answers
      with credentials made from the winner exactly when the owner is below the device
      cap; a rejection is for the same row. */
  lemma ConfirmAnswers(c: Config, s: Server, now: int, i: RowId)
    requires Inv(c, s) && Indexed(s) && OldestPending(s, now, s.secretOrder, Some(i)) && i < |s.rows|
    ensures var p, r := DoConfirm(c, s, now), s.rows[i];
            && r.winner.Some? && i < |p.server.rows|
            && (if ActiveRows(s.rows, r.owner) < c.deviceCap then
                  && p.response == Some(IsActive(c.issue(i + 1, r.winner.value), r.owner.tenant))
                  && p.server.rows[i].state.Active?
                else p.response.None? && p.server.rows[i] == r)
    ensures var t := DoReject(s, now); i < |t.rows| && t.rows[i] == s.rows[i].(state := Rejected)
  {
    var f := FirstPending(s, now, s.secretOrder);
    FirstPendingIsOldest(s, now, s.secretOrder);
    OldestIsUnique(s, now, s.secretOrder, f.1, Some(i));
    OldestHolds(s, now, s.secretOrder, i);
    FirstPendingKeepsDevices(s, now, s.secretOrder);
    assert Devices(s, s.rows[i].owner) == ActiveRows(s.rows, s.rows[i].owner);
    ConfirmOutcome(c, f.0, i, now) by { assert RowOk(c, i, s.rows[i]); }
    hide Inv, FirstPending, OldestPending, ConfirmRow, ActiveRows;
  }

  lemma OldestHolds(s: Server, now: int, order: seq<Hash>, i: RowId)
    requires forall h :: h in order ==> h in s.bySecret && s.bySecret[h] < |s.rows|
    requires OldestPending(s, now, order, Some(i)) && i < |s.rows|
    ensures PendingInTime(s.rows[i], now)
  {
  }

  lemma ConfirmOutcome(c: Config, s: Server, i: RowId, now: int)
    requires i < |s.rows| && PendingInTime(s.rows[i], now) && RowOk(c, i, s.rows[i])
    ensures var t, r := ConfirmRow(c, s, i, now), s.rows[i];
            && r.winner.Some? && r.creds.None? && |t.rows| == |s.rows|
            && t.rows[i] == if Devices(s, r.owner) < c.deviceCap
                            then r.(state := Active, creds := Some(c.issue(i + 1, r.winner.value))) else r
  {
  }

  lemma OldestIsUnique(s: Server, now: int, order: seq<Hash>, f: Option<RowId>, g: Option<RowId>)
    requires forall h :: h in order ==> h in s.bySecret && s.bySecret[h] < |s.rows|
    requires OldestPending(s, now, order, f) && OldestPending(s, now, order, g)
    ensures f == g
  {
    hide PendingInTime;
  }

  lemma {:induction false} FirstPendingKeepsDevices(s: Server, now: int, order: seq<Hash>)
    requires forall h :: h in order ==> h in s.bySecret && s.bySecret[h] < |s.rows|
    ensures FirstPending(s, now, order).0.devices == s.devices
    decreases |order|
  {
    if order != [] {
      ExpireKeepsPending(s, s.bySecret[order[0]], now);
      FirstPendingKeepsDevices(Expire(s, s.bySecret[order[0]], now), now, order[1..]);
    }
  }

  /** With no row pending in time, both do nothing but note expiries. */
  lemma NothingToConfirm(c: Config, s: Server, now: int)
    requires Inv(c, s) && Indexed(s) && OldestPending(s, now, s.secretOrder, None)
    ensures DoConfirm(c, s, now).response.None? && DoConfirm(c, s, now).server == DoReject(s, now)
    ensures DoReject(s, now).devices == s.devices && SameWinners(s, DoReject(s, now))
  {
    FirstPendingIsOldest(s, now, s.secretOrder);
    OldestIsUnique(s, now, s.secretOrder, FirstPending(s, now, s.secretOrder).1, None);
    FirstPendingKeepsDevices(s, now, s.secretOrder);
    FirstPendingKeepsWinners(s, now, s.secretOrder);
    hide Inv, FirstPending, OldestPending;
  }

  // ---- test hooks ----

  /** A poll that reaches the row of a pending winner in time. */
  ghost predicate LivePending(s: Server, now: int, h: Hash, i: RowId)
    requires Indexed(s)
  {
    && h in s.byToken && s.byToken[h] == i && PendingInTime(s.rows[i], now)
    && var t := FindToken(s.rows[i].tokens, h);
       t.Some? && now < t.value.expiresAt && s.rows[i].winner == Some(t.value.key)
  }

  lemma LivePendingAnswer(c: Config, s: Server, now: int, h: Hash, i: RowId)
    requires Indexed(s) && LivePending(s, now, h, i)
    ensures DoPoll(c, s, now, Some(h)) == AnswerPoll(c, s, i, now, h)
  {
  }

  /** How many polls of a run deserved an answer other than the generic refusal. */
  ghost function DeservingPolls(c: Config, steps: seq<Step>): nat {
    if steps == [] then 0
    else
      var s, last := After(c, steps[..|steps| - 1]), steps[|steps| - 1];
      DeservingPolls(c, steps[..|steps| - 1])
      + if last.request.Poll? && Inv(c, s) && Deserved(c, s, last.now, last.request.presented) != InvalidOrExpired then 1 else 0
  }

  function Least(m: nat, n: nat): nat { if m < n then m else n }

  lemma OthersForceNothing(c: Config, s: Server, now: int, q: Request)
    requires Indexed(s) && !q.Poll?
    ensures React(c, s, now, q).server.forced == s.forced
  {
    match q {
      case Complete(body, token) => hide Newest, Evicted, Hashes;
      case Mint(_, _, _, _) =>
      case _ =>
        FirstPendingForcesNothing(s, now, s.secretOrder);
        hide FirstPending;
    }
  }

  lemma {:induction false} FirstPendingForcesNothing(s: Server, now: int, order: seq<Hash>)
    requires forall h :: h in order ==> h in s.bySecret && s.bySecret[h] < |s.rows|
    ensures FirstPending(s, now, order).0.forced == s.forced
    decreases |order|
  {
    if order != [] {
      ExpireKeepsPending(s, s.bySecret[order[0]], now);
      FirstPendingForcesNothing(Expire(s, s.bySecret[order[0]], now), now, order[1..]);
    }
  }

  /** Over every run without auto-confirmation, the refusal hook refuses exactly the first
      `forced404s` polls that deserved better, and no later one. */
  lemma {:induction false} HookRefusesTheFirst(c: Config, steps: seq<Step>)
    requires Possible(c, steps) && c.autoConfirm.None?
    ensures After(c, steps).forced == Least(c.forced404s, DeservingPolls(c, steps))
  {
    if steps != [] {
      var init, last := steps[..|steps| - 1], steps[|steps| - 1];
      HookRefusesTheFirst(c, init);
      InvAlways(c, init);
      var s := After(c, init);
      if last.request.Poll? {
        PollAnswers(c, s, last.now, last.request.presented);
      } else {
        OthersForceNothing(c, s, last.now, last.request);
      }
      hide Inv, Indexed, DoPoll, DoMint, DoComplete, DoConfirm, DoReject, Deserved;
    }
  }

  /** With `autoConfirm` n, the n-th poll of a pending row confirms it, and still answers
      that it is pending; with n not positive the poll itself gets the credentials. */
  lemma AutoConfirmed(c: Config, s: Server, now: int, h: Hash, i: RowId)
    requires Inv(c, s) && Indexed(s) && LivePending(s, now, h, i) && c.autoConfirm.Some? && c.forced404s <= s.forced
    ensures var p, r, n := DoPoll(c, s, now, Some(h)), s.rows[i], c.autoConfirm.value;
            var room := ActiveRows(s.rows, r.owner) < c.deviceCap;
            && i < |p.server.rows| && r.winner.Some?
            && (p.server.rows[i].state.Active? <==> room && (n <= 0 || r.statusPolls + 1 >= n))
            && p.response == Some(if n <= 0 && room then IsActive(c.issue(i + 1, r.winner.value), r.owner.tenant) else StillPending)
  {
    hide Inv, ActiveRows, DoPoll, AnswerPoll, LivePending, ConfirmRow;
    LivePendingAnswer(c, s, now, h, i);
    StillInTime(s, now, h, i);
    CountedDevices(c, s, s.rows[i].owner);
    RowsOk(c, s, i);
    if c.autoConfirm.value <= 0 { ConfirmedAtOnce(c, s, i, now, h); } else { ConfirmedLater(c, s, i, now, h); }
  }

  lemma CountedDevices(c: Config, s: Server, o: Owner)
    requires Inv(c, s)
    ensures Devices(s, o) == ActiveRows(s.rows, o)
  {
  }

  lemma StillInTime(s: Server, now: int, h: Hash, i: RowId)
    requires Indexed(s) && LivePending(s, now, h, i)
    ensures i < |s.rows| && PendingInTime(s.rows[i], now)
  {
  }

  lemma ConfirmedAtOnce(c: Config, s: Server, i: RowId, now: int, h: Hash)
    requires i < |s.rows| && PendingInTime(s.rows[i], now) && RowOk(c, i, s.rows[i])
    requires c.autoConfirm.Some? && c.autoConfirm.value <= 0 && c.forced404s <= s.forced
    ensures var p, r := AnswerPoll(c, s, i, now, h), s.rows[i];
            var room := Devices(s, r.owner) < c.deviceCap;
            && i < |p.server.rows| && r.winner.Some? && (p.server.rows[i].state.Active? <==> room)
            && p.response == Some(if room then IsActive(c.issue(i + 1, r.winner.value), r.owner.tenant) else StillPending)
  {
    ConfirmOutcome(c, s, i, now);
    hide RowOk;
    var s1, r := ConfirmRow(c, s, i, now), s.rows[i];
    assert s1.forced == s.forced;
    if Devices(s, r.owner) >= c.deviceCap {
      var s2 := Update(s1, i, r.(statusPolls := r.statusPolls + 1));
      assert s1 == s;
      assert RowOk(c, i, s2.rows[i]) by { PolledRowOk(c, i, r); }
      ConfirmOutcome(c, s2, i, now);
      assert Devices(s2, r.owner) == Devices(s, r.owner);
    }
    hide ConfirmRow;
  }

  lemma PolledRowOk(c: Config, i: RowId, r: Row)
    requires RowOk(c, i, r)
    ensures RowOk(c, i, r.(statusPolls := r.statusPolls + 1))
  {
  }

  lemma ConfirmedLater(c: Config, s: Server, i: RowId, now: int, h: Hash)
    requires i < |s.rows| && PendingInTime(s.rows[i], now) && RowOk(c, i, s.rows[i])
    requires c.autoConfirm.Some? && c.autoConfirm.value > 0 && c.forced404s <= s.forced
    ensures var p, r := AnswerPoll(c, s, i, now, h), s.rows[i];
            && i < |p.server.rows| && p.response == Some(StillPending) && r.winner.Some?
            && (p.server.rows[i].state.Active? <==>
                  Devices(s, r.owner) < c.deviceCap && r.statusPolls + 1 >= c.autoConfirm.value)
  {
    var r := s.rows[i];
    var s2 := Update(s, i, r.(statusPolls := r.statusPolls + 1));
    PolledRowOk(c, i, r);
    hide RowOk, ConfirmRow;
    ConfirmOutcome(c, s2, i, now);
    assert Devices(s2, r.owner) == Devices(s, r.owner);
    assert r.winner.Some? && s2.rows[i].winner == r.winner;
  }
}
