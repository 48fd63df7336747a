/** The agent and the relay, seen from one attempt: what the two ends and the two
    channels between them owe each other. Nothing here mentions the agent's tables;
    `RelayWorld` shows that the handlers keep these promises. */
module RelayLink {
  import opened Options
  import opened JobTypes
  import opened JobProtocol

  /** What matters about the agent's record of one attempt. */
  datatype Seen = Seen(has: bool, lease: LeaseId, prev: Option<LeaseId>, events: seq<EngineEvent>, acked: int)

  const NOTHING: Seen := Seen(false, 0, None, [], 0)

  /** Server-to-agent messages; both channels are FIFO and lost with the connection. */
  datatype Down =
    | DAssign(m: AssignMsg)
    | DStreamAck(x: AttemptId, lease: LeaseId, k: nat)
    | DResultAck(x: AttemptId, lease: LeaseId, digest: Digest)
    | DGranted(x: AttemptId, lease: LeaseId)
    | DCancel(x: AttemptId, lease: LeaseId, grace: nat)
    | DRevoke(x: AttemptId, lease: LeaseId)

  function About(d: Down): AttemptId {
    if d.DAssign? then d.m.attempt else d.x
  }

  function Bears(d: Down): LeaseId {
    if d.DAssign? then d.m.lease else d.lease
  }

  /** The relay's record of one assignment of an attempt: the leases it issued for it,
      whether it saw the `job.accept`, and the prefix of events it holds durably. */
  datatype RelayJob = RelayJob(leases: set<LeaseId>, accepted: bool, log: seq<EngineEvent>)

  /** The relay's in-order reception: extend the prefix by one, or ignore. */
  function Receive(j: RelayJob, m: Msg): RelayJob {
    if m.StreamEvent? && m.lease in j.leases && m.seqNo == |j.log| + 1 then j.(log := j.log + [m.event])
    else if m.JobAccept? && m.lease in j.leases then j.(accepted := true)
    else j
  }

  predicate Relevant(m: Msg, x: AttemptId, j: RelayJob) {
    m.StreamEvent? && m.attempt == x && m.lease in j.leases
  }

  /** The prefix length the relay reaches by receiving `up`, or `None` if on the way it
      meets an event that leaves a gap. */
  function Feed(up: seq<Msg>, x: AttemptId, j: RelayJob, p: nat): Option<nat> {
    if up == [] then Some(p)
    else if !Relevant(up[0], x, j) || up[0].seqNo <= p then Feed(up[1..], x, j, p)
    else if up[0].seqNo == p + 1 then Feed(up[1..], x, j, p + 1)
    else None
  }

  /** The agent's record belongs to the relay's current assignment of the attempt. */
  predicate Same(s: Seen, j: RelayJob) {
    s.has && s.lease in j.leases
  }

  ghost predicate LeasesUsed(s: Seen, x: AttemptId, up: seq<Msg>, down: seq<Down>, used: set<LeaseId>) {
    && (s.has ==> s.lease in used)
    && (s.has && s.prev.Some? ==> s.prev.value in used)
    && (forall m :: m in up && AttemptOf(m) == x ==> LeaseOf(m) in used)
    && (forall d :: d in down && About(d) == x ==> Bears(d) in used)
  }

  /** A `lease.granted` behind a current `job.assign` is itself current. */
  ghost predicate GrantsInOrder(x: AttemptId, down: seq<Down>, j: RelayJob) {
    forall i, k ::
      (0 <= i < k < |down| && down[i].DAssign? && About(down[i]) == x && Bears(down[i]) in j.leases
       && down[k].DGranted? && About(down[k]) == x)
      ==> Bears(down[k]) in j.leases
  }

  ghost predicate UpOk(s: Seen, x: AttemptId, up: seq<Msg>, j: RelayJob) {
    && (forall m :: m in up && m.JobAccept? && m.attempt == x && m.lease in j.leases ==> Same(s, j))
    && (forall m :: m in up && Relevant(m, x, j) ==>
          Same(s, j) && 1 <= m.seqNo <= |s.events| && m.event == s.events[m.seqNo - 1])
  }

  ghost predicate DownOk(s: Seen, x: AttemptId, down: seq<Down>, j: RelayJob) {
    forall d :: d in down && About(d) == x ==>
      && (Bears(d) in j.leases ==>
            && !d.DRevoke? && !d.DResultAck?
            && (d.DGranted? ==> Same(s, j))
            && (d.DStreamAck? ==> d.k <= |j.log|))
      && (d.DGranted? && Same(s, j) ==> d.lease in j.leases)
  }

  ghost predicate Agreed(s: Seen, j: RelayJob) {
    && j.log <= s.events
    && s.acked <= |j.log|
    && (s.prev.Some? ==> s.prev.value in j.leases)
  }

  ghost predicate JobLink(s: Seen, x: AttemptId, up: seq<Msg>, down: seq<Down>, used: set<LeaseId>, j: RelayJob, synced: bool) {
    && j.leases <= used
    && (j.accepted ==> Same(s, j))
    && GrantsInOrder(x, down, j)
    && UpOk(s, x, up, j)
    && DownOk(s, x, down, j)
    && (Same(s, j) ==> Agreed(s, j))
    && (!Same(s, j) ==> j.log == [])
    && (Same(s, j) && synced ==> Feed(up, x, j, |j.log|) == Some(|s.events|))
  }

  /** Everything the two ends owe each other about attempt `x`. */
  ghost predicate Link(
      s: Seen, x: AttemptId, up: seq<Msg>, down: seq<Down>, used: set<LeaseId>, job: Option<RelayJob>, synced: bool)
  {
    && LeasesUsed(s, x, up, down, used)
    && (job.Some? ==> JobLink(s, x, up, down, used, job.value, synced))
  }

  /** What the link says about the next message to the agent. */
  lemma NextMessage(
      s: Seen, x: AttemptId, up: seq<Msg>, down: seq<Down>, used: set<LeaseId>, job: Option<RelayJob>, synced: bool)
    requires Link(s, x, up, down, used, job, synced) && down != [] && About(down[0]) == x
    ensures Bears(down[0]) in used
    ensures s.has ==> s.lease in used
    ensures job.Some? ==>
              var d, j := down[0], job.value;
              && (Same(s, j) && s.prev.Some? ==> s.prev.value in j.leases)
              && (Bears(d) in j.leases ==> !d.DRevoke? && !d.DResultAck?)
              && (Bears(d) in j.leases && d.DStreamAck? ==> d.k <= |j.log|)
              && (d.DGranted? ==> (Bears(d) in j.leases <==> Same(s, j)))
  {
    assert down[0] in down;
  }

  // ---- feeding ----

  lemma {:induction false} FeedAppend(up: seq<Msg>, m: Msg, x: AttemptId, j: RelayJob, p: nat)
    ensures Feed(up + [m], x, j, p) ==
            match Feed(up, x, j, p)
            case None => None
            case Some(q) => Feed([m], x, j, q)
  {
    if up == [] {
      assert up + [m] == [m];
    } else {
      assert (up + [m])[1..] == up[1..] + [m];
      if !Relevant(up[0], x, j) || up[0].seqNo <= p { FeedAppend(up[1..], m, x, j, p); }
      else if up[0].seqNo == p + 1 { FeedAppend(up[1..], m, x, j, p + 1); }
    }
  }

  lemma {:induction false} FeedIrrelevant(up: seq<Msg>, more: seq<Msg>, x: AttemptId, j: RelayJob, p: nat)
    requires forall m :: m in more ==> !Relevant(m, x, j)
    ensures Feed(up + more, x, j, p) == Feed(up, x, j, p)
  {
    if more == [] {
      assert up + more == up;
    } else {
      var init, last := more[..|more| - 1], more[|more| - 1];
      FeedIrrelevant(up, init, x, j, p);
      FeedAppend(up + init, last, x, j, p);
      assert up + more == (up + init) + [last];
      assert [last][1..] == [];
    }
  }

  /** The messages of a resume: sequence numbers `from + 1` to `to`, under lease `l`. */
  ghost predicate Resumes(sent: seq<Msg>, x: AttemptId, l: LeaseId, from: nat, s: Seen) {
    && |sent| == |s.events| - from
    && forall i :: 0 <= i < |sent| ==>
         && sent[i].StreamEvent? && sent[i].attempt == x && sent[i].lease == l
         && sent[i].seqNo == from + i + 1 && sent[i].event == s.events[from + i]
  }

  /** Feeding consecutive events that start inside the prefix reaches their end. */
  lemma {:induction false} FeedRun(up: seq<Msg>, sent: seq<Msg>, x: AttemptId, j: RelayJob, p: nat, q: nat, from: nat)
    requires Feed(up, x, j, p) == Some(q) && from <= q
    requires forall i :: 0 <= i < |sent| ==> Relevant(sent[i], x, j) && sent[i].seqNo == from + i + 1
    ensures Feed(up + sent, x, j, p) == Some(if from + |sent| <= q then q else from + |sent|)
  {
    if sent == [] {
      assert up + sent == up;
    } else {
      var init, last := sent[..|sent| - 1], sent[|sent| - 1];
      FeedRun(up, init, x, j, p, q, from);
      FeedAppend(up + init, last, x, j, p);
      assert up + sent == (up + init) + [last];
      assert [last][1..] == [];
    }
  }

  // ---- the agent speaks ----

  /** The agent sends messages about `x` that are no stream events. */
  lemma LinkSend(
      s: Seen, x: AttemptId, up: seq<Msg>, down: seq<Down>, used: set<LeaseId>, job: Option<RelayJob>, synced: bool,
      sent: seq<Msg>)
    requires Link(s, x, up, down, used, job, synced)
    requires forall m :: m in sent && AttemptOf(m) == x ==> !m.StreamEvent? && LeaseOf(m) in used
    requires forall m :: m in sent && m.JobAccept? && m.attempt == x ==> s.has && m.lease == s.lease
    ensures Link(s, x, up + sent, down, used, job, synced)
  {
    if job.Some? {
      FeedIrrelevant(up, sent, x, job.value, |job.value.log|);
    }
  }

  /** The agent emits one event, and sends it if it is connected. */
  lemma LinkEmit(
      s: Seen, x: AttemptId, up: seq<Msg>, down: seq<Down>, used: set<LeaseId>, job: Option<RelayJob>, synced: bool,
      m: Msg, online: bool)
    requires Link(s, x, up, down, used, job, synced) && s.has
    requires m.StreamEvent? && m.attempt == x && m.lease == s.lease && m.seqNo == |s.events| + 1
    requires !online ==> !synced
    ensures Link(s.(events := s.events + [m.event]), x, if online then up + [m] else up, down, used, job, synced)
  {
    if job.Some? && online {
      FeedAppend(up, m, x, job.value, |job.value.log|);
      assert [m][1..] == [];
    }
  }

  /** A resume resends everything above `from`, under a lease of the current assignment. */
  lemma LinkResume(
      s: Seen, x: AttemptId, up: seq<Msg>, down: seq<Down>, used: set<LeaseId>, j: RelayJob, synced: bool,
      sent: seq<Msg>, l: LeaseId, from: nat)
    requires Link(s, x, up, down, used, Some(j), synced) && Same(s, j) && s.lease == l
    requires from <= |j.log| && Resumes(sent, x, l, from, s)
    requires synced || forall m :: m in up ==> !Relevant(m, x, j)
    ensures Link(s, x, up + sent, down, used, Some(j), true)
  {
    assert Feed([], x, j, |j.log|) == Some(|j.log|);
    if !synced {
      FeedIrrelevant([], up, x, j, |j.log|);
      assert [] + up == up;
    }
    var q := if synced then |s.events| else |j.log|;
    FeedRun(up, sent, x, j, |j.log|, q, from);
  }

  /** The agent moves to another lease of the current assignment. */
  lemma LinkRotate(
      s: Seen, x: AttemptId, up: seq<Msg>, down: seq<Down>, used: set<LeaseId>, job: Option<RelayJob>, synced: bool,
      t: Seen)
    requires Link(s, x, up, down, used, job, synced)
    requires t == s.(lease := t.lease, prev := t.prev)
    requires t.has ==> t.lease in used
    requires t.prev == s.prev || t.prev == None || (s.has && t.prev == Some(s.lease))
    requires job.Some? ==> (t.lease in job.value.leases <==> s.lease in job.value.leases)
    ensures Link(t, x, up, down, used, job, synced)
  {
  }

  /** The agent takes note of an acknowledgement it accepts. */
  lemma LinkAcked(
      s: Seen, x: AttemptId, up: seq<Msg>, down: seq<Down>, used: set<LeaseId>, job: Option<RelayJob>, synced: bool,
      acked: int, k: nat)
    requires Link(s, x, up, down, used, job, synced)
    requires acked <= s.acked || acked <= k
    requires job.Some? && Same(s, job.value) ==> k <= |job.value.log|
    ensures Link(s.(acked := acked), x, up, down, used, job, synced)
  {
  }

  /** The agent forgets an attempt that is not of the relay's current assignment. */
  lemma LinkForget(
      s: Seen, x: AttemptId, up: seq<Msg>, down: seq<Down>, used: set<LeaseId>, job: Option<RelayJob>, synced: bool)
    requires Link(s, x, up, down, used, job, synced)
    requires job.Some? ==> !Same(s, job.value)
    ensures Link(NOTHING, x, up, down, used, job, synced)
  {
  }

  /** The agent creates a record for a `job.assign` it has just taken off the channel. */
  lemma LinkCreate(
      x: AttemptId, up: seq<Msg>, down: seq<Down>, used: set<LeaseId>, job: Option<RelayJob>, synced: bool,
      sent: seq<Msg>)
    requires down != [] && down[0].DAssign? && About(down[0]) == x
    requires Link(NOTHING, x, up, down, used, job, synced)
    requires forall m :: m in sent ==> AttemptOf(m) == x && LeaseOf(m) == Bears(down[0]) && !m.StreamEvent?
    ensures Link(Seen(true, Bears(down[0]), None, [], 0), x, up + sent, down[1..], used, job, true)
  {
    var s := Seen(true, Bears(down[0]), None, [], 0);
    assert forall d :: d in down[1..] ==> d in down;
    assert down[0] in down;
    if job.Some? {
      var j := job.value;
      if Same(s, j) {
        FeedIrrelevant([], up + sent, x, j, 0);
        assert [] + (up + sent) == up + sent;
      }
      TailInOrder(x, down, j);
    }
  }

  lemma TailInOrder(x: AttemptId, down: seq<Down>, j: RelayJob)
    requires down != [] && GrantsInOrder(x, down, j)
    ensures GrantsInOrder(x, down[1..], j)
  {
    forall i, k | 0 <= i < k < |down| - 1 && down[1..][i].DAssign? && About(down[1..][i]) == x
                  && Bears(down[1..][i]) in j.leases && down[1..][k].DGranted? && About(down[1..][k]) == x
      ensures Bears(down[1..][k]) in j.leases
    {
      assert down[1..][i] == down[i + 1] && down[1..][k] == down[k + 1];
    }
  }

  /** Taking a message off the channel keeps the link. */
  lemma LinkTake(
      s: Seen, x: AttemptId, up: seq<Msg>, down: seq<Down>, used: set<LeaseId>, job: Option<RelayJob>, synced: bool)
    requires down != [] && Link(s, x, up, down, used, job, synced)
    ensures Link(s, x, up, down[1..], used, job, synced)
  {
    assert forall d :: d in down[1..] ==> d in down;
    if job.Some? { TailInOrder(x, down, job.value); }
  }

  // ---- the relay speaks ----

  /** The relay receives the next message of the agent. */
  lemma LinkReceive(
      s: Seen, x: AttemptId, up: seq<Msg>, down: seq<Down>, used: set<LeaseId>, job: Option<RelayJob>, synced: bool)
    requires up != [] && Link(s, x, up, down, used, job, synced)
    ensures Link(s, x, up[1..], down, used,
                 if job.Some? && AttemptOf(up[0]) == x then Some(Receive(job.value, up[0])) else job, synced)
  {
    assert forall m :: m in up[1..] ==> m in up;
    assert up[0] in up;
    if job.Some? && AttemptOf(up[0]) == x {
      var j, k := job.value, Receive(job.value, up[0]);
      FeedLeases(up[1..], x, j, k, |k.log|);
    }
  }

  lemma {:induction false} FeedLeases(up: seq<Msg>, x: AttemptId, j: RelayJob, k: RelayJob, p: nat)
    requires forall m :: m in up ==> (Relevant(m, x, j) <==> Relevant(m, x, k))
    ensures Feed(up, x, j, p) == Feed(up, x, k, p)
  {
    if up != [] {
      assert up[0] in up;
      assert forall m :: m in up[1..] ==> m in up;
      if !Relevant(up[0], x, j) || up[0].seqNo <= p { FeedLeases(up[1..], x, j, k, p); }
      else if up[0].seqNo == p + 1 { FeedLeases(up[1..], x, j, k, p + 1); }
    }
  }

  /** The relay sends a message about `x` under a lease it issued, other than one that
      ends the assignment; a grant only after it saw the attempt accepted. */
  lemma LinkTell(
      s: Seen, x: AttemptId, up: seq<Msg>, down: seq<Down>, used: set<LeaseId>, job: Option<RelayJob>, synced: bool,
      d: Down)
    requires Link(s, x, up, down, used, job, synced)
    requires About(d) == x ==> Bears(d) in used
    requires About(d) == x && job.Some? ==>
               && (d.DRevoke? || d.DResultAck? ==> Bears(d) !in job.value.leases)
               && (d.DGranted? ==> job.value.accepted && Bears(d) in job.value.leases)
               && (d.DStreamAck? && Bears(d) in job.value.leases ==> d.k <= |job.value.log|)
    ensures Link(s, x, up, down + [d], used, job, synced)
  {
    if job.Some? {
      var j := job.value;
      forall i, k | 0 <= i < k < |down + [d]| && (down + [d])[i].DAssign? && About((down + [d])[i]) == x
                    && Bears((down + [d])[i]) in j.leases && (down + [d])[k].DGranted? && About((down + [d])[k]) == x
        ensures Bears((down + [d])[k]) in j.leases
      {
        assert (down + [d])[i] == down[i];
      }
    }
  }

  /** A new assignment starts under a lease never used before. */
  lemma LinkAssign(
      s: Seen, x: AttemptId, up: seq<Msg>, down: seq<Down>, used: set<LeaseId>, synced: bool, lease: LeaseId)
    requires Link(s, x, up, down, used, None, synced) && lease !in used
    ensures Link(s, x, up, down, used + {lease}, Some(RelayJob({lease}, false, [])), synced)
  {
    assert forall d :: d in down && About(d) == x ==> Bears(d) != lease;
    assert forall i :: 0 <= i < |down| ==> down[i] in down;
  }

  /** The relay issues one more lease for the current assignment. */
  lemma LinkIssue(
      s: Seen, x: AttemptId, up: seq<Msg>, down: seq<Down>, used: set<LeaseId>, j: RelayJob, synced: bool, lease: LeaseId)
    requires Link(s, x, up, down, used, Some(j), synced) && lease !in used
    ensures Link(s, x, up, down, used + {lease}, Some(j.(leases := j.leases + {lease})), synced)
  {
    var k := j.(leases := j.leases + {lease});
    assert forall i :: 0 <= i < |down| ==> down[i] in down;
    FeedLeases(up, x, j, k, |j.log|);
  }

  lemma LinkMoreUsed(
      s: Seen, x: AttemptId, up: seq<Msg>, down: seq<Down>, used: set<LeaseId>, job: Option<RelayJob>, synced: bool,
      lease: LeaseId)
    requires Link(s, x, up, down, used, job, synced)
    ensures Link(s, x, up, down, used + {lease}, job, synced)
  {
  }

  /** The connection is gone, and with it everything in flight. */
  lemma LinkDisconnect(
      s: Seen, x: AttemptId, up: seq<Msg>, down: seq<Down>, used: set<LeaseId>, job: Option<RelayJob>, synced: bool)
    requires Link(s, x, up, down, used, job, synced)
    ensures Link(s, x, [], [], used, job, false)
  {
  }
}
