/** The durable store: three tables that every method inserts into, updates or deletes
    from. A statement that matches no row changes nothing. */
module EventLogStore {
  import opened Options
  import opened JobTypes
  import opened EventTable
  import opened JobProtocol
  import H = EventLogHistory

  class EventLog {
    var attempts: map<AttemptId, Attempt>
    var events: seq<EventRow>
    var results: map<AttemptId, StoredResult>

    /** The three tables as one value: every method that writes is one statement of a history. */
    ghost function Tables(): H.Store
      reads this
    {
      H.Store(attempts, events, results)
    }

    constructor ()
      ensures attempts == map[] && events == [] && results == map[] && Tables() == H.Replay([])
    {
      attempts, events, results := map[], [], map[];
    }

    /** Insert-or-ignore; tells whether the row is new. */
    method CreateAttempt(x: AttemptId, row: Attempt) returns (created: bool)
      modifies this`attempts
      ensures created <==> x !in old(attempts)
      ensures attempts == if created then old(attempts)[x := row] else old(attempts)
      ensures Tables() == H.Apply(old(Tables()), H.Create(x, row))
    {
      created := x !in attempts;
      if created { attempts := attempts[x := row]; }
    }

    method GetAttempt(x: AttemptId) returns (row: Option<Attempt>)
      ensures row == if x in attempts then Some(attempts[x]) else None
    {
      row := if x in attempts then Some(attempts[x]) else None;
    }

    method SetAttemptStatus(x: AttemptId, status: Status)
      modifies this`attempts
      ensures attempts == if x in old(attempts) then old(attempts)[x := old(attempts)[x].(status := status)] else old(attempts)
      ensures Tables() == H.Apply(old(Tables()), H.SetStatus(x, status))
    {
      if x in attempts { attempts := attempts[x := attempts[x].(status := status)]; }
    }

    method SetAttemptLease(x: AttemptId, lease: LeaseId)
      modifies this`attempts
      ensures attempts == if x in old(attempts) then old(attempts)[x := old(attempts)[x].(lease := lease)] else old(attempts)
      ensures Tables() == H.Apply(old(Tables()), H.SetLease(x, lease))
    {
      if x in attempts { attempts := attempts[x := attempts[x].(lease := lease)]; }
    }

    /** Lease, digest, payload and size of a pending result move together. */
    method UpdateResult(x: AttemptId, lease: LeaseId, digest: Digest, payload: ResultMsg, size: nat)
      modifies this`results
      ensures results ==
              if x in old(results)
              then old(results)[x := old(results)[x].(lease := lease, digest := digest, payload := payload, size := size)]
              else old(results)
      ensures Tables() == H.Apply(old(Tables()), H.Update(x, lease, digest, payload, size))
    {
      if x in results {
        results := results[x := results[x].(lease := lease, digest := digest, payload := payload, size := size)];
      }
    }

    /** The row and its events; a pending result is not touched. */
    method DeleteAttempt(x: AttemptId)
      modifies this`attempts, this`events
      ensures attempts == old(attempts) - {x} && events == Dropped(old(events), x)
      ensures Tables() == H.Apply(old(Tables()), H.Delete(x))
    {
      attempts := attempts - {x};
      events := Dropped(events, x);
    }

    /** The primary key `(attempt_id, seq)` must be free. */
    method AppendEvent(row: EventRow)
      requires forall r :: r in events ==> !(r.attempt == row.attempt && r.seqNo == row.seqNo)
      modifies this`attempts, this`events
      ensures events == old(events) + [row]
      ensures attempts ==
              if row.attempt in old(attempts) && old(attempts)[row.attempt].lastSeq < row.seqNo
              then old(attempts)[row.attempt := old(attempts)[row.attempt].(lastSeq := row.seqNo)]
              else old(attempts)
      ensures Tables() == H.Apply(old(Tables()), H.Append(row))
    {
      events := events + [row];
      if row.attempt in attempts && attempts[row.attempt].lastSeq < row.seqNo {
        attempts := attempts[row.attempt := attempts[row.attempt].(lastSeq := row.seqNo)];
      }
    }

    method AckEvents(x: AttemptId, k: nat)
      modifies this`events
      ensures events == Acked(old(events), x, k)
      ensures Tables() == H.Apply(old(Tables()), H.Ack(x, k))
    {
      events := Acked(events, x, k);
    }

    /** The stored payloads of `x` after `k`, in sequence order. */
    method StoredAfter(x: AttemptId, k: nat) returns (rows: seq<EventRow>)
      ensures rows == EventsAfter(events, x, k)
    {
      rows := EventsAfter(events, x, k);
    }

    method UnackedEvents(x: AttemptId) returns (n: nat)
      ensures n == |RowsOf(events, x)|
    {
      n := |RowsOf(events, x)|;
    }

    method UnackedBytes(x: AttemptId) returns (n: nat)
      ensures n == Bytes(RowsOf(events, x))
    {
      n := Bytes(RowsOf(events, x));
    }

    method ConnUnackedBytes() returns (n: nat)
      ensures n == Bytes(events)
    {
      n := Bytes(events);
    }

    method SaveResult(x: AttemptId, r: StoredResult)
      modifies this`results
      ensures results == old(results)[x := r]
      ensures Tables() == H.Apply(old(Tables()), H.Save(x, r))
    {
      results := results[x := r];
    }

    method GetResult(x: AttemptId) returns (r: Option<StoredResult>)
      ensures r == if x in results then Some(results[x]) else None
    {
      r := if x in results then Some(results[x]) else None;
    }

    /** Digest-matched deletion. */
    method AckResult(x: AttemptId, digest: Digest) returns (collected: bool)
      modifies this`results
      ensures collected <==> x in old(results) && old(results)[x].digest == digest
      ensures results == if collected then old(results) - {x} else old(results)
      ensures Tables() == H.Apply(old(Tables()), H.Collect(x, digest))
    {
      collected := x in results && results[x].digest == digest;
      if collected { results := results - {x}; }
    }

    method DeleteResult(x: AttemptId)
      modifies this`results
      ensures results == old(results) - {x}
      ensures Tables() == H.Apply(old(Tables()), H.Discard(x))
    {
      results := results - {x};
    }
  }
}
