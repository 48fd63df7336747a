/** The pairing server over whole runs of requests, and what each answer means. */
module PairingRuns {
  import opened Options
  import opened PairingProtocol
  import opened PairingInvariant

  function React(c: Config, s: Server, now: int, q: Request): Reply
    requires Indexed(s)
  {
    match q
    case Mint(_, _, _, _) => Reply(DoMint(s, now, q), None)
    case Complete(body, token) => DoComplete(c, s, now, body, token)
    case Poll(presented) => DoPoll(c, s, now, presented)
    case Confirm => DoConfirm(c, s, now)
    case Reject => Reply(DoReject(s, now), None)
  }

  /** Every index entry names a row. */
  ghost predicate Indexed(s: Server) {
    && (forall h :: h in s.bySecret ==> s.bySecret[h] < |s.rows|)
    && (forall h :: h in s.byToken ==> s.byToken[h] < |s.rows|)
    && (forall h :: h in s.secretOrder ==> h in s.bySecret)
  }

  /** The hash of a newly drawn poll token is not in the index. */
  ghost predicate Fresh(s: Server, q: Request) {
    q.Complete? ==> q.token !in s.byToken
  }

  // ---- one request ----

  lemma MintStep(c: Config, s: Server, now: int, q: Request)
    requires Inv(c, s) && q.Mint?
    ensures Inv(c, DoMint(s, now, q)) && AllProgress(s, DoMint(s, now, q))
  {
    hide Holds, DevicesAgree, ActiveRows;
    var t := DoMint(s, now, q);
    var n := |s.rows|;
    assert RowOk(c, n, t.rows[n]);
    hide Hashes, RowOk, TokensAgree, SecretsAgree, DistinctHashes;
    assert t.rows[..n] == s.rows;
    forall i | 0 <= i < n ensures t.rows[i] == s.rows[i] { assert t.rows[..n][i] == t.rows[i]; }
    MintTokens(s, t);
    MintSecrets(s, t, q.secret);
    MintDevices(c, s, t);
  }

  lemma MintDevices(c: Config, s: Server, t: Server)
    requires DevicesAgree(c, s) && t.devices == s.devices && |t.rows| == |s.rows| + 1
    requires t.rows[..|s.rows|] == s.rows && !t.rows[|s.rows|].state.Active?
    ensures DevicesAgree(c, t)
  {
    forall o: Owner ensures Devices(t, o) == ActiveRows(t.rows, o) && Devices(t, o) <= c.deviceCap {
      assert Devices(s, o) == ActiveRows(s.rows, o);
    }
  }

  lemma MintTokens(s: Server, t: Server)
    requires TokensAgree(s) && |t.rows| == |s.rows| + 1 && t.byToken == s.byToken
    requires forall i :: 0 <= i < |s.rows| ==> t.rows[i] == s.rows[i]
    requires Hashes(t.rows[|s.rows|].tokens) == []
    ensures TokensAgree(t)
  {
    hide Hashes;
  }

  lemma MintSecrets(s: Server, t: Server, h: Hash)
    requires SecretsAgree(s) && |t.rows| == |s.rows| + 1 && t.rows[|s.rows|].secret == h
    requires forall i :: 0 <= i < |s.rows| ==> t.rows[i] == s.rows[i]
    requires t.bySecret == s.bySecret[h := |s.rows|]
    requires t.secretOrder == if h in s.bySecret then s.secretOrder else s.secretOrder + [h]
    ensures SecretsAgree(t)
  {
  }

  lemma WinStep(c: Config, s: Server, i: RowId, now: int, key: Key, token: Hash)
    requires Inv(c, s) && i < |s.rows| && s.rows[i].state.Issued? && token !in s.byToken
    ensures Inv(c, Win(c, s, i, now, key, token)) && AllProgress(s, Win(c, s, i, now, key, token))
  {
    var t := PollToken(token, now, s.rows[i].pendingExp, key);
    var m := MintToken(c, s, i, t);
    var r := m.rows[i].(state := Pending, winner := Some(key));
    MintTokenStep(c, s, i, t, r) by { hide Inv, AllProgress; }
    SameButRegistered(c, Update(m, i, r), s.registered + [key]);
  }

  lemma SameButRegistered(c: Config, s: Server, keys: seq<Key>)
    requires Inv(c, s)
    ensures Inv(c, s.(registered := keys))
  {
    hide RowOk, Hashes, ActiveRows;
    var t := s.(registered := keys);
    assert DevicesAgree(c, t) by { forall o: Owner ensures Devices(t, o) == Devices(s, o) { } }
  }

  lemma SameButForced(c: Config, s: Server, n: nat)
    requires Inv(c, s)
    ensures Inv(c, s.(forced := n))
  {
    hide RowOk, Hashes, ActiveRows;
    var t := s.(forced := n);
    assert DevicesAgree(c, t) by { forall o: Owner ensures Devices(t, o) == Devices(s, o) { } }
  }

  lemma AgainStep(c: Config, s: Server, i: RowId, t: PollToken)
    requires Inv(c, s) && i < |s.rows| && t.hash !in s.byToken
    requires !s.rows[i].state.Issued? && s.rows[i].winner == Some(t.key)
    ensures Inv(c, MintToken(c, s, i, t)) && AllProgress(s, MintToken(c, s, i, t))
  {
    var m := MintToken(c, s, i, t);
    var r := m.rows[i];
    MintTokenStep(c, s, i, t, r) by { hide Inv, AllProgress, Newest, Evicted; }
    assert Update(m, i, r) == m by { assert m.rows[i := r] == m.rows; }
  }

  lemma CompleteStep(c: Config, s: Server, now: int, body: Option<Completion>, token: Hash)
    requires Inv(c, s) && Indexed(s) && token !in s.byToken
    ensures Inv(c, DoComplete(c, s, now, body, token).server)
    ensures AllProgress(s, DoComplete(c, s, now, body, token).server)
  {
    hide Inv, AllProgress, MintToken, Win, Expire, CountFailure;
    AllProgressRefl(s);
    if body.Some? && body.value.secret in s.bySecret {
      var m, i := body.value, s.bySecret[body.value.secret];
      var s1 := Expire(s, i, now);
      ExpireStep(c, s, i, now);
      var r := s1.rows[i];
      CountFailureStep(c, s1, i, now);
      AllProgressTrans(s, s1, CountFailure(c, s1, i, now));
      if r.state.Issued? {
        BurnStep(c, s1, i);
        AllProgressTrans(s, s1, Update(s1, i, r.(state := Burned)));
        WinStep(c, s1, i, now, m.key, token);
        AllProgressTrans(s, s1, Win(c, s1, i, now, m.key, token));
      } else if r.winner == Some(m.key) {
        var t := PollToken(token, now, if r.state.Active? then now + c.activeTokenTtl else r.pendingExp, m.key);
        AgainStep(c, s1, i, t);
        AllProgressTrans(s, s1, MintToken(c, s1, i, t));
      }
    }
  }

  lemma ConfirmForced(c: Config, s: Server, i: RowId, h: Hash, n: nat)
    requires Inv(c, s) && i < |s.rows| && h in s.byToken && s.byToken[h] == i
    ensures var t := RemoveToken(s.(forced := n), i, h); Inv(c, t) && AllProgress(s, t)
  {
    SameButForced(c, s, n);
    RemoveTokenStep(c, s.(forced := n), i, h) by { hide Inv, RemoveToken, AllProgress; }
  }

  lemma CountPoll(c: Config, s: Server, i: RowId)
    requires Inv(c, s) && i < |s.rows| && s.rows[i].state.Pending?
    ensures var t := Update(s, i, s.rows[i].(statusPolls := s.rows[i].statusPolls + 1)); Inv(c, t) && AllProgress(s, t)
  {
    hide TokensAgree, SecretsAgree, DevicesAgree, DistinctHashes;
    RowStep(c, s, i, s.rows[i].(statusPolls := s.rows[i].statusPolls + 1));
  }

  lemma AnswerStep(c: Config, s: Server, i: RowId, now: int, h: Hash)
    requires Inv(c, s) && i < |s.rows| && h in s.byToken && s.byToken[h] == i
    ensures Inv(c, AnswerPoll(c, s, i, now, h).server) && AllProgress(s, AnswerPoll(c, s, i, now, h).server)
  {
    hide Inv, AllProgress, RemoveToken, ConfirmRow, Progress;
    var auto := c.autoConfirm;
    AllProgressRefl(s);
    ConfirmRowStep(c, s, i, now);
    var s1 := if s.rows[i].state.Pending? && auto.Some? && auto.value <= 0 then ConfirmRow(c, s, i, now) else s;
    ConfirmForced(c, s1, i, h, s1.forced + 1);
    AllProgressTrans(s, s1, RemoveToken(s1.(forced := s1.forced + 1), i, h));
    if s1.rows[i].state.Pending? {
      var s2 := Update(s1, i, s1.rows[i].(statusPolls := s1.rows[i].statusPolls + 1));
      CountPoll(c, s1, i);
      AllProgressTrans(s, s1, s2);
      ConfirmRowStep(c, s2, i, now);
      AllProgressTrans(s, s2, ConfirmRow(c, s2, i, now));
    }
  }

  lemma PollStep(c: Config, s: Server, now: int, token: Option<Hash>)
    requires Inv(c, s) && Indexed(s)
    ensures Inv(c, DoPoll(c, s, now, token).server) && AllProgress(s, DoPoll(c, s, now, token).server)
  {
    hide Inv, AllProgress, RemoveToken, AnswerPoll, Expire, FindToken;
    AllProgressRefl(s);
    if token.Some? && token.value in s.byToken {
      var h, i := token.value, s.byToken[token.value];
      RemoveTokenStep(c, s, i, h);
      var s1 := Expire(s, i, now);
      ExpireStep(c, s, i, now);
      AnswerStep(c, s1, i, now, h);
      AllProgressTrans(s, s1, AnswerPoll(c, s1, i, now, h).server);
    }
  }

  lemma {:induction false} FirstPendingStep(c: Config, s: Server, now: int, order: seq<Hash>)
    requires Inv(c, s) && forall h :: h in order ==> h in s.bySecret && s.bySecret[h] < |s.rows|
    ensures var p := FirstPending(s, now, order);
            && Inv(c, p.0) && AllProgress(s, p.0) && |p.0.rows| == |s.rows|
            && (p.1.Some? ==> p.1.value < |s.rows| && p.0.rows[p.1.value].state.Pending?)
    decreases |order|
  {
    if order != [] {
      var i := s.bySecret[order[0]];
      ExpireStep(c, s, i, now);
      var s1 := Expire(s, i, now);
      assert s1.bySecret == s.bySecret && |s1.rows| == |s.rows|;
      hide Inv, Expire, Progress;
      if !s1.rows[i].state.Pending? {
        FirstPendingStep(c, s1, now, order[1..]);
        AllProgressTrans(s, s1, FirstPending(s, now, order).0);
      }
    }
  }

  lemma ConfirmStep(c: Config, s: Server, now: int)
    requires Inv(c, s) && Indexed(s)
    ensures Inv(c, DoConfirm(c, s, now).server) && AllProgress(s, DoConfirm(c, s, now).server)
  {
    hide Inv, AllProgress, FirstPending, ConfirmRow;
    FirstPendingStep(c, s, now, s.secretOrder);
    var (s1, i) := FirstPending(s, now, s.secretOrder);
    if i.Some? {
      ConfirmRowStep(c, s1, i.value, now);
      AllProgressTrans(s, s1, ConfirmRow(c, s1, i.value, now));
    }
  }

  lemma RejectStep(c: Config, s: Server, now: int)
    requires Inv(c, s) && Indexed(s)
    ensures Inv(c, DoReject(s, now)) && AllProgress(s, DoReject(s, now))
  {
    FirstPendingStep(c, s, now, s.secretOrder);
    var (s1, i) := FirstPending(s, now, s.secretOrder);
    if i.Some? {
      RejectRow(c, s1, i.value);
      hide Inv, AllProgress, FirstPending;
      AllProgressTrans(s, s1, DoReject(s, now));
    }
  }

  lemma RejectRow(c: Config, s: Server, i: RowId)
    requires Inv(c, s) && i < |s.rows| && s.rows[i].state.Pending?
    ensures var t := Update(s, i, s.rows[i].(state := Rejected)); Inv(c, t) && AllProgress(s, t)
  {
    hide TokensAgree, SecretsAgree, DevicesAgree, DistinctHashes;
    RowStep(c, s, i, s.rows[i].(state := Rejected));
  }

  lemma InvIndexed(c: Config, s: Server)
    requires Inv(c, s)
    ensures Indexed(s)
  {
  }

  /** Every request keeps the invariant and only moves rows forward. */
  lemma InvReact(c: Config, s: Server, now: int, q: Request)
    requires Inv(c, s) && Indexed(s) && Fresh(s, q)
    ensures Inv(c, React(c, s, now, q).server) && AllProgress(s, React(c, s, now, q).server)
    ensures Indexed(React(c, s, now, q).server)
  {
    hide Inv, AllProgress, Indexed, DoMint, DoComplete, DoPoll, DoConfirm, DoReject;
    match q {
      case Mint(_, _, _, _) => MintStep(c, s, now, q);
      case Complete(body, token) => CompleteStep(c, s, now, body, token);
      case Poll(presented) => PollStep(c, s, now, presented);
      case Confirm => ConfirmStep(c, s, now);
      case Reject => RejectStep(c, s, now);
    }
    InvIndexed(c, React(c, s, now, q).server);
  }

  // ---- whole runs ----

  datatype Step = Step(now: int, request: Request)

  ghost predicate Possible(c: Config, steps: seq<Step>) {
    steps == [] ||
    (var s := After(c, steps[..|steps| - 1]);
     Possible(c, steps[..|steps| - 1]) && Fresh(s, steps[|steps| - 1].request))
  }

  /** The server after a run of requests, at whatever times. */
  ghost function After(c: Config, steps: seq<Step>): Server {
    if steps == [] then EmptyServer
    else
      var s := After(c, steps[..|steps| - 1]);
      if Indexed(s) then React(c, s, steps[|steps| - 1].now, steps[|steps| - 1].request).server else s
  }

  lemma InvEmpty(c: Config)
    ensures Inv(c, EmptyServer)
  {
  }

  /** In every reachable state: index and rows agree, lists are within their cap, every
      token carries the winning key, failures stay within the cap, each counter is the
      number of active rows of its owner and within the device cap. */
  lemma {:induction false} InvAlways(c: Config, steps: seq<Step>)
    requires Possible(c, steps)
    ensures Inv(c, After(c, steps)) && Indexed(After(c, steps))
  {
    hide Inv, Indexed, React;
    InvEmpty(c);
    if steps != [] {
      var s, last := After(c, steps[..|steps| - 1]), steps[|steps| - 1];
      InvAlways(c, steps[..|steps| - 1]);
      InvReact(c, s, last.now, last.request);
    }
    InvIndexed(c, After(c, steps));
  }

  /** Over the rest of any run a row only moves forward: its winner never changes once
      set, a terminal state stays, and failures count only before a win. */
  lemma {:induction false} RowsOnlyProgress(c: Config, steps: seq<Step>, n: nat)
    requires Possible(c, steps) && n <= |steps|
    ensures AllProgress(After(c, steps[..n]), After(c, steps))
  {
    if n == |steps| {
      assert steps[..n] == steps;
      AllProgressRefl(After(c, steps));
    } else {
      var init, last := steps[..|steps| - 1], steps[|steps| - 1];
      assert init[..n] == steps[..n];
      RowsOnlyProgress(c, init, n);
      InvAlways(c, init);
      InvReact(c, After(c, init), last.now, last.request) by { hide Inv, Indexed, React; }
      AllProgressTrans(After(c, steps[..n]), After(c, init), After(c, steps)) by { hide Inv, Indexed, React, AllProgress; }
    }
  }

  // ---- what each answer means ----

  /** The row a completion names, as it is at the time. */
  ghost function Named(s: Server, now: int, m: Completion): Row
    requires Indexed(s) && m.secret in s.bySecret
  {
    Seen(s.rows[s.bySecret[m.secret]], now)
  }

  /** A completion is accepted exactly when its proof holds and the row is still to be
      won, or was won by this very key and is not over. */
  lemma AcceptedIff(c: Config, s: Server, now: int, m: Completion, token: Hash)
    requires Inv(c, s) && Indexed(s) && token !in s.byToken && m.secret in s.bySecret
    ensures var p := DoComplete(c, s, now, Some(m), token);
            var r := Named(s, now, m);
            p.response == Some(Accepted(m.key, token)) <==>
            m.popOk && !m.refused && ((r.state.Issued? && 0 < c.attemptCap)
                                      || ((r.state.Pending? || r.state.Active?) && r.winner == Some(m.key)))
  {
    ExpireStep(c, s, s.bySecret[m.secret], now);
    assert RowOk(c, s.bySecret[m.secret], Named(s, now, m));
    hide TokensAgree, SecretsAgree, DevicesAgree, MintToken;
  }

  /** The last `n` of a list, or all of it. */
  function LastOf<T>(xs: seq<T>, n: nat): seq<T> {
    if |xs| <= n then xs else xs[|xs| - n..]
  }

  /** Acceptance makes or finds the key the winner and hands out a working token, good for
      as long as the row is pending, or for the lifetime of tokens of active rows; the
      oldest tokens over the cap go; everything else of the row stays. */
  lemma AcceptedBelongsToWinner(c: Config, s: Server, now: int, m: Completion, token: Hash)
    requires Inv(c, s) && Indexed(s) && token !in s.byToken && m.secret in s.bySecret
    requires DoComplete(c, s, now, Some(m), token).response == Some(Accepted(m.key, token))
    ensures var i := s.bySecret[m.secret];
            var t, r := DoComplete(c, s, now, Some(m), token).server, Named(s, now, m);
            && i < |t.rows| && t.rows[i].winner == Some(m.key)
            && t.rows[i] == r.(
                 state := if r.state.Issued? then Pending else r.state,
                 winner := Some(m.key),
                 tokens := LastOf(
                   r.tokens + [PollToken(token, now, if r.state == Active then now + c.activeTokenTtl else r.pendingExp, m.key)],
                   c.pollTokenCap))
            && t.registered == s.registered + (if r.state == Issued then [m.key] else [])
            && (forall j :: 0 <= j < |s.rows| && j != i ==> t.rows[j] == s.rows[j])
            && t.devices == s.devices && t.forced == s.forced && t.bySecret == s.bySecret && t.secretOrder == s.secretOrder
            && (c.pollTokenCap > 0 ==> token in t.byToken && t.byToken[token] == i)
  {
    hide Inv, Evicted, Hashes, AllProgress;
    var i := s.bySecret[m.secret];
    var s1 := Expire(s, i, now);
    ExpireStep(c, s, i, now);
    ExpireSees(s, i, now);
    var r := s1.rows[i];
    var t := PollToken(token, now, if r.state.Active? then now + c.activeTokenTtl else r.pendingExp, m.key);
    if c.pollTokenCap > 0 {
      NewTokenStays(c, s1, i, t);
    }
  }

  lemma NewTokenStays(c: Config, s: Server, i: RowId, t: PollToken)
    requires Inv(c, s) && i < |s.rows| && t.hash !in s.byToken && c.pollTokenCap > 0
    ensures t.hash in MintToken(c, s, i, t).byToken && MintToken(c, s, i, t).byToken[t.hash] == i
  {
    var all := s.rows[i].tokens + [t];
    var gone := Evicted(all, c.pollTokenCap);
    hide Hashes, SecretsAgree, DevicesAgree;
    NotHeld(s, i, t.hash);
    assert RowOk(c, i, s.rows[i]);
    assert |gone| <= |s.rows[i].tokens| && gone == s.rows[i].tokens[..|gone|];
    forall k | 0 <= k < |gone| ensures Hashes(gone)[k] != t.hash {
      assert Hashes(s.rows[i].tokens)[k] == Hashes(gone)[k];
    }
  }

  /** A completion that does not win changes nothing on a row that is won or over; on an
      issued row it counts one failure, and burns the row at the cap. */
  lemma LosingCompletion(c: Config, s: Server, now: int, m: Completion, token: Hash)
    requires Inv(c, s) && Indexed(s) && token !in s.byToken && m.secret in s.bySecret
    requires DoComplete(c, s, now, Some(m), token).response == Some(PairingFailed)
    ensures var i := s.bySecret[m.secret];
            var r, t := Named(s, now, m), DoComplete(c, s, now, Some(m), token).server;
            t == s.(rows := s.rows[i :=
                   if r.state != Issued then r
                   else if m.refused || !m.popOk then
                     r.(attempts := r.attempts + 1, state := if r.attempts + 1 >= c.attemptCap then Burned else Issued)
                   else r.(state := Burned)])
            && (r.state == Issued && m.popOk && !m.refused ==> c.attemptCap == 0)
  {
    hide Inv, Expire, CountFailure, MintToken, Win, Seen;
    var i := s.bySecret[m.secret];
    var r := Seen(s.rows[i], now);
    ExpireSees(s, i, now);
    SeenRow(c, s, i, now);
    FailureCounted(c, s.(rows := s.rows[i := r]), i, now);
    assert s.rows[i := r][i := r] == s.rows[i := r];
  }

  lemma SeenRow(c: Config, s: Server, i: RowId, now: int)
    requires Inv(c, s) && i < |s.rows|
    ensures var r := Seen(s.rows[i], now);
            && Seen(r, now) == r
            && (r.state.Issued? && r.attempts >= c.attemptCap ==> c.attemptCap == 0)
            && (!r.state.Issued? && !r.state.Expired? && !r.state.Burned? ==> r.winner.Some?)
  {
    assert RowOk(c, i, s.rows[i]);
    hide Inv, DistinctHashes;
  }

  lemma FailureCounted(c: Config, s: Server, i: RowId, now: int)
    requires i < |s.rows| && Seen(s.rows[i], now) == s.rows[i]
    ensures var r := s.rows[i];
            CountFailure(c, s, i, now) ==
            if r.state != Issued then s
            else s.(rows := s.rows[i := r.(attempts := r.attempts + 1, state := if r.attempts + 1 >= c.attemptCap then Burned else Issued)])
  {
  }

  ghost predicate Acceptable(c: Config, s: Server, now: int, body: Option<Completion>)
    requires Indexed(s)
  {
    && body.Some? && body.value.secret in s.bySecret
    && var m := body.value;
       var r := Named(s, now, m);
       && m.popOk && !m.refused
       && ((r.state.Issued? && 0 < c.attemptCap) || ((r.state.Pending? || r.state.Active?) && r.winner == Some(m.key)))
  }

  /** Every completion is answered: by acceptance of its own key exactly when it is
      acceptable, and by the one generic failure otherwise. */
  lemma CompletionAnswers(c: Config, s: Server, now: int, body: Option<Completion>, token: Hash)
    requires Inv(c, s) && Indexed(s) && token !in s.byToken
    ensures DoComplete(c, s, now, body, token).response ==
            Some(if Acceptable(c, s, now, body) then Accepted(body.value.key, token) else PairingFailed)
    ensures body.None? || body.value.secret !in s.bySecret ==> DoComplete(c, s, now, body, token).server == s
  {
    hide Inv, Expire, CountFailure, Win, MintToken, Update, Seen;
    if body.Some? && body.value.secret in s.bySecret { AcceptedIff(c, s, now, body.value, token); }
  }

  /** Which answer a poll deserves when no test hook interferes. */
  ghost function Deserved(c: Config, s: Server, now: int, presented: Option<Hash>): Response
    requires Inv(c, s)
  {
    if presented.None? || presented.value !in s.byToken then InvalidOrExpired
    else
      var i := s.byToken[presented.value];
      var t := FindToken(s.rows[i].tokens, presented.value);
      var r := Seen(s.rows[i], now);
      if t.None? || t.value.expiresAt <= now then InvalidOrExpired
      else match r.state
        case Pending => StillPending
        case Rejected => WasRejected
        case Active => IsActive(c.issue(i + 1, t.value.key), r.owner.tenant)
        case _ => InvalidOrExpired
  }

  lemma FoundToken(c: Config, s: Server, h: Hash)
    requires Inv(c, s) && h in s.byToken
    ensures var i := s.byToken[h];
            var t := FindToken(s.rows[i].tokens, h);
            t.Some? && t.value.hash == h && s.rows[i].winner == Some(t.value.key)
  {
    var i := s.byToken[h];
    assert Holds(s.rows[i], h) && RowOk(c, i, s.rows[i]);
    hide SecretsAgree, DevicesAgree, Hashes, FindToken;
    var k :| 0 <= k < |Hashes(s.rows[i].tokens)| && Hashes(s.rows[i].tokens)[k] == h;
    assert s.rows[i].tokens[k] in s.rows[i].tokens;
  }

  /** A live token is always one of the stored winner: it learns the state of its own
      row, and credentials only in that row's name and made from its key. Only the test
      hook refuses instead, while it has refusals left, and it takes the token back. */
  lemma PollAnswers(c: Config, s: Server, now: int, presented: Option<Hash>)
    requires Inv(c, s) && Indexed(s) && c.autoConfirm.None?
    ensures var p, deserved := DoPoll(c, s, now, presented), Deserved(c, s, now, presented);
            var refused := deserved != InvalidOrExpired && s.forced < c.forced404s;
            && p.response == Some(if refused then InvalidOrExpired else deserved)
            && p.server.forced == s.forced + (if refused then 1 else 0)
            && (refused ==> presented.value !in p.server.byToken)
  {
    hide Inv, AllProgress, FindToken, Expire, AnswerPoll;
    if presented.Some? && presented.value in s.byToken {
      var h, i := presented.value, s.byToken[presented.value];
      var s1 := Expire(s, i, now);
      FoundToken(c, s, h);
      ExpireStep(c, s, i, now);
      ExpiredOnly(s, i, now);
      ExpireSees(s, i, now);
      PlainAnswer(c, s1, i, now, h);
    }
  }

  lemma ExpiredOnly(s: Server, i: RowId, now: int)
    requires i < |s.rows|
    ensures |Expire(s, i, now).rows| == |s.rows| && Expire(s, i, now).forced == s.forced
    ensures Expire(s, i, now).rows[i] == s.rows[i].(state := Expire(s, i, now).rows[i].state)
    ensures Expire(s, i, now).rows[i].state.Pending? ==> s.rows[i].state.Pending? && now < s.rows[i].pendingExp
    ensures Expire(s, i, now).rows[i].state.Active? <==> s.rows[i].state.Active?
  {
  }

  lemma PlainAnswer(c: Config, s: Server, i: RowId, now: int, h: Hash)
    requires Inv(c, s) && i < |s.rows| && c.autoConfirm.None? && s.rows[i].winner.Some?
    ensures !s.rows[i].state.Issued?
    ensures var p, r := AnswerPoll(c, s, i, now, h), s.rows[i];
            if s.forced < c.forced404s then
              p.response == Some(InvalidOrExpired) && p.server.forced == s.forced + 1 && h !in p.server.byToken
            else
              && p.server.forced == s.forced
              && p.response == Some(
                   match r.state
                   case Pending => StillPending
                   case Rejected => WasRejected
                   case Active => IsActive(c.issue(i + 1, r.winner.value), r.owner.tenant)
                   case _ => InvalidOrExpired)
  {
    assert RowOk(c, i, s.rows[i]);
    hide TokensAgree, SecretsAgree, DevicesAgree;
  }

  /** With the test hooks on, credentials still go only to a live token of the winner of
      an active row, and are made from its key. */
  lemma CredentialsOnlyToWinner(c: Config, s: Server, now: int, h: Hash, creds: Credentials, tenant: string)
    requires Inv(c, s) && Indexed(s) && h in s.byToken
    requires DoPoll(c, s, now, Some(h)).response == Some(IsActive(creds, tenant))
    ensures var i, t, r := s.byToken[h], FindToken(s.rows[s.byToken[h]].tokens, h), s.rows[s.byToken[h]];
            && t.Some? && now < t.value.expiresAt && r.winner == Some(t.value.key)
            && (r.state.Active? || (r.state.Pending? && now < r.pendingExp && c.autoConfirm.Some?))
            && creds == c.issue(i + 1, t.value.key) && tenant == r.owner.tenant
  {
    hide Inv, AllProgress, RemoveToken, FindToken, Expire, AnswerPoll;
    var i := s.byToken[h];
    var s1 := Expire(s, i, now);
    FoundToken(c, s, h);
    ExpireStep(c, s, i, now);
    ExpiredOnly(s, i, now);
    ActiveAnswer(c, s1, i, now, h, creds, tenant);
  }

  lemma ActiveAnswer(c: Config, s: Server, i: RowId, now: int, h: Hash, creds: Credentials, tenant: string)
    requires Inv(c, s) && i < |s.rows| && s.rows[i].winner.Some?
    requires AnswerPoll(c, s, i, now, h).response == Some(IsActive(creds, tenant))
    ensures s.rows[i].state.Active? || (s.rows[i].state.Pending? && c.autoConfirm.Some?)
    ensures creds == c.issue(i + 1, s.rows[i].winner.value) && tenant == s.rows[i].owner.tenant
  {
    assert RowOk(c, i, s.rows[i]);
    hide Inv, TokensAgree, SecretsAgree, DevicesAgree, RemoveToken;
  }

  /** A pending row is activated exactly while its owner is below the device cap and its
      own time has not run out; then the owner has one device more. */
  lemma ActivatedIff(c: Config, s: Server, i: RowId, now: int)
    requires Inv(c, s) && i < |s.rows| && s.rows[i].state.Pending?
    ensures var t := ConfirmRow(c, s, i, now);
            var o := s.rows[i].owner;
            var activated := now < s.rows[i].pendingExp && ActiveRows(s.rows, o) < c.deviceCap;
            && |t.rows| == |s.rows| && (t.rows[i].state.Active? <==> activated)
            && ActiveRows(t.rows, o) == ActiveRows(s.rows, o) + if activated then 1 else 0
  {
    hide Holds, Devices, DistinctHashes, AllProgress;
    var o := s.rows[i].owner;
    assert Devices(s, o) == ActiveRows(s.rows, o);
    assert RowOk(c, i, s.rows[i]);
    ConfirmRowStep(c, s, i, now);
    ActiveUpdate(s.rows, i, ConfirmRow(c, s, i, now).rows[i], o);
    hide TokensAgree, SecretsAgree, ActiveRows, DevicesAgree, Inv;
    assert ConfirmRow(c, s, i, now).rows == s.rows[i := ConfirmRow(c, s, i, now).rows[i]];
  }
}
