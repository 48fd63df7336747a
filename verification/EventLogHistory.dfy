/** The durable store told from the statements it was given: which events, attempts and
    results are in the tables after any sequence of statements. */
module EventLogHistory {
  import opened JobTypes
  import opened EventTable

  datatype Store = Store(attempts: map<AttemptId, Attempt>, events: seq<EventRow>, results: map<AttemptId, StoredResult>)

  const EmptyStore: Store := Store(map[], [], map[])

  datatype Op =
    | Create(x: AttemptId, row: Attempt)
    | SetStatus(x: AttemptId, status: Status)
    | SetLease(x: AttemptId, lease: LeaseId)
    | Append(event: EventRow)
    | Ack(x: AttemptId, k: nat)
    | Delete(x: AttemptId)
    | Save(x: AttemptId, result: StoredResult)
    | Update(x: AttemptId, lease: LeaseId, digest: Digest, payload: ResultMsg, size: nat)
    | Collect(x: AttemptId, digest: Digest)
    | Discard(x: AttemptId)

  function Raised(attempts: map<AttemptId, Attempt>, e: EventRow): map<AttemptId, Attempt> {
    if e.attempt in attempts && attempts[e.attempt].lastSeq < e.seqNo
    then attempts[e.attempt := attempts[e.attempt].(lastSeq := e.seqNo)] else attempts
  }

  /** One statement; one that matches no row changes nothing. */
  function Apply(s: Store, op: Op): Store {
    match op
    case Create(x, row) => if x in s.attempts then s else s.(attempts := s.attempts[x := row])
    case SetStatus(x, status) => if x in s.attempts then s.(attempts := s.attempts[x := s.attempts[x].(status := status)]) else s
    case SetLease(x, lease) => if x in s.attempts then s.(attempts := s.attempts[x := s.attempts[x].(lease := lease)]) else s
    case Append(e) => s.(events := s.events + [e], attempts := Raised(s.attempts, e))
    case Ack(x, k) => s.(events := Acked(s.events, x, k))
    case Delete(x) => s.(attempts := s.attempts - {x}, events := Dropped(s.events, x))
    case Save(x, r) => s.(results := s.results[x := r])
    case Update(x, lease, digest, payload, size) =>
      if x in s.results
      then s.(results := s.results[x := s.results[x].(lease := lease, digest := digest, payload := payload, size := size)])
      else s
    case Collect(x, digest) => if x in s.results && s.results[x].digest == digest then s.(results := s.results - {x}) else s
    case Discard(x) => s.(results := s.results - {x})
  }

  function Replay(ops: seq<Op>): Store {
    if ops == [] then EmptyStore else Apply(Replay(ops[..|ops| - 1]), ops[|ops| - 1])
  }

  // ---- what one deletion does to the event table ----

  /** The rows of `x` numbered up to `k`. */
  function Covered(rows: seq<EventRow>, x: AttemptId, k: int): seq<EventRow> {
    if rows == [] then []
    else
      var init, last := Covered(rows[..|rows| - 1], x, k), rows[|rows| - 1];
      if last.attempt == x && last.seqNo <= k then init + [last] else init
  }

  /** A cumulative ack removes exactly the rows of its attempt up to its number: the rows
      of every other attempt stay as they are, and the total drops by what was removed. */
  lemma {:induction false} AckRemovesExactly(rows: seq<EventRow>, x: AttemptId, k: int)
    ensures forall r :: r in Acked(rows, x, k) <==> r in rows && !(r.attempt == x && r.seqNo <= k)
    ensures forall y :: y != x ==> RowsOf(Acked(rows, x, k), y) == RowsOf(rows, y)
    ensures Bytes(rows) == Bytes(Acked(rows, x, k)) + Bytes(Covered(rows, x, k))
    ensures |rows| == |Acked(rows, x, k)| + |Covered(rows, x, k)|
  {
    forall y | y != x ensures RowsOf(Acked(rows, x, k), y) == RowsOf(rows, y) { RowsOfAckedOther(rows, x, k, y); }
    if rows != [] {
      var init, last := rows[..|rows| - 1], rows[|rows| - 1];
      assert rows == init + [last];
      AckRemovesExactly(init, x, k);
      AckedSnoc(init, last, x, k);
      BytesSnoc(Acked(init, x, k), last);
      BytesSnoc(Covered(init, x, k), last);
      hide RowsOf, Acked;
    }
  }

  lemma BytesSnoc(rows: seq<EventRow>, r: EventRow)
    ensures Bytes(rows + [r]) == Bytes(rows) + r.bytes
  {
    assert (rows + [r])[..|rows|] == rows;
  }

  lemma {:induction false} DropRemovesExactly(rows: seq<EventRow>, x: AttemptId)
    ensures forall r :: r in Dropped(rows, x) <==> r in rows && r.attempt != x
  {
    if rows != [] {
      assert rows == rows[..|rows| - 1] + [rows[|rows| - 1]];
      DropRemovesExactly(rows[..|rows| - 1], x);
    }
  }

  // ---- events ----

  predicate Removes(op: Op, e: EventRow) {
    op == Delete(e.attempt) || (op.Ack? && op.x == e.attempt && e.seqNo <= op.k)
  }

  /** Appended at `j`, and no later statement removes it. */
  ghost predicate KeptSince(ops: seq<Op>, e: EventRow, j: nat) {
    j < |ops| && ops[j] == Append(e) && forall i :: j < i < |ops| ==> !Removes(ops[i], e)
  }

  lemma KeptSnoc(ops: seq<Op>, op: Op, e: EventRow)
    ensures (exists j: nat :: KeptSince(ops + [op], e, j)) <==>
            op == Append(e) || (!Removes(op, e) && exists j: nat :: KeptSince(ops, e, j))
  {
    var all := ops + [op];
    if op == Append(e) { assert KeptSince(all, e, |ops|); }
    if !Removes(op, e) && exists j: nat :: KeptSince(ops, e, j) {
      var j: nat :| KeptSince(ops, e, j);
      assert KeptSince(all, e, j);
    }
    if op != Append(e) && exists j: nat :: KeptSince(all, e, j) {
      var j: nat :| KeptSince(all, e, j);
      assert all[|ops|] == op && j < |ops|;
      assert forall i :: j < i < |ops| ==> ops[i] == all[i];
      assert KeptSince(ops, e, j);
    }
  }

  lemma EventsAfterOp(s: Store, op: Op, e: EventRow)
    ensures e in Apply(s, op).events <==> op == Append(e) || (!Removes(op, e) && e in s.events)
  {
    match op
    case Ack(x, k) => AckRemovesExactly(s.events, x, k);
    case Delete(x) => DropRemovesExactly(s.events, x);
    case _ =>
  }

  /** An event is stored exactly if it was appended and neither acknowledged nor deleted
      with its attempt since. */
  lemma {:induction false} StoredIff(ops: seq<Op>, e: EventRow)
    ensures e in Replay(ops).events <==> exists j: nat :: KeptSince(ops, e, j)
  {
    if ops != [] {
      var init, last := ops[..|ops| - 1], ops[|ops| - 1];
      assert ops == init + [last];
      StoredIff(init, e);
      EventsAfterOp(Replay(init), last, e);
      hide Apply;
      KeptSnoc(init, last, e);
    }
  }

  // ---- the high-water mark ----

  /** The row of `x` was created at `c` and not deleted since. */
  ghost predicate CreatedAt(ops: seq<Op>, x: AttemptId, c: nat) {
    && c < |ops| && ops[c].Create? && ops[c].x == x
    && x !in Replay(ops[..c]).attempts
    && forall i :: c < i < |ops| ==> ops[i] != Delete(x)
  }

  /** `n` is the largest number appended for `x` after `c`, or what the row began with. */
  ghost predicate LargestSince(ops: seq<Op>, x: AttemptId, c: nat, n: nat)
    requires c < |ops| && ops[c].Create?
  {
    && ops[c].row.lastSeq <= n
    && (forall i :: c < i < |ops| && ops[i].Append? && ops[i].event.attempt == x ==> ops[i].event.seqNo <= n)
    && (n == ops[c].row.lastSeq
        || exists i :: c < i < |ops| && ops[i].Append? && ops[i].event.attempt == x && ops[i].event.seqNo == n)
  }

  lemma MarkSnoc(ops: seq<Op>, op: Op, x: AttemptId, c: nat)
    requires x in Replay(ops).attempts && op != Delete(x)
    requires CreatedAt(ops, x, c) && LargestSince(ops, x, c, Replay(ops).attempts[x].lastSeq)
    ensures x in Apply(Replay(ops), op).attempts && CreatedAt(ops + [op], x, c)
    ensures LargestSince(ops + [op], x, c, Apply(Replay(ops), op).attempts[x].lastSeq)
  {
    var all, s := ops + [op], Replay(ops);
    var n, m := s.attempts[x].lastSeq, Apply(s, op).attempts[x].lastSeq;
    hide Replay;
    assert all[..c] == ops[..c] && all[c] == ops[c] && all[|ops|] == op;
    assert forall i :: 0 <= i < |ops| ==> all[i] == ops[i];
    if m == n {
      if n != ops[c].row.lastSeq {
        var i :| c < i < |ops| && ops[i].Append? && ops[i].event.attempt == x && ops[i].event.seqNo == n;
        assert all[i] == ops[i];
      }
    } else {
      assert op.Append? && op.event.attempt == x && op.event.seqNo == m && all[|ops|] == op;
    }
  }

  /** While its row exists, the high-water mark of an attempt is the largest number
      appended since the row was created. */
  lemma {:induction false} HighWaterMark(ops: seq<Op>, x: AttemptId) returns (c: nat)
    requires x in Replay(ops).attempts
    ensures CreatedAt(ops, x, c) && LargestSince(ops, x, c, Replay(ops).attempts[x].lastSeq)
  {
    var init, last := ops[..|ops| - 1], ops[|ops| - 1];
    assert ops == init + [last];
    if x in Replay(init).attempts && last != Delete(x) {
      c := HighWaterMark(init, x);
      MarkSnoc(init, last, x, c);
    } else {
      c := |init|;
      assert last.Create? && last.x == x && ops[..c] == init;
    }
  }

  // ---- results ----

  /** A statement that ends a stored result of `x` in this state. */
  predicate Ends(s: Store, op: Op, x: AttemptId) {
    op == Discard(x) || (op.Collect? && op.x == x && x in s.results && s.results[x].digest == op.digest)
  }

  /** The result of `x` was last saved at `j` and not ended since; updates since then
      leave all but lease, digest, payload and size. */
  ghost predicate SavedAt(ops: seq<Op>, x: AttemptId, j: nat) {
    && j < |ops| && ops[j].Save? && ops[j].x == x
    && forall i :: j < i < |ops| ==> !Ends(Replay(ops[..i]), ops[i], x) && !(ops[i].Save? && ops[i].x == x)
  }

  lemma SavedSnoc(ops: seq<Op>, op: Op, x: AttemptId, j: nat)
    requires SavedAt(ops, x, j) && !Ends(Replay(ops), op, x) && !(op.Save? && op.x == x)
    ensures SavedAt(ops + [op], x, j)
  {
    hide Replay, Ends;
    var all := ops + [op];
    forall i | j < i < |all| ensures !Ends(Replay(all[..i]), all[i], x) && !(all[i].Save? && all[i].x == x) {
      if i < |ops| { assert all[..i] == ops[..i] && all[i] == ops[i]; } else { assert all[..i] == ops; }
    }
  }

  lemma SavedInit(ops: seq<Op>, op: Op, x: AttemptId, j: nat)
    requires SavedAt(ops + [op], x, j) && j < |ops|
    ensures SavedAt(ops, x, j) && !Ends(Replay(ops), op, x) && !(op.Save? && op.x == x)
  {
    hide Replay, Ends;
    var all := ops + [op];
    assert all[|ops|] == op && all[..|ops|] == ops;
    forall i | j < i < |ops| ensures !Ends(Replay(ops[..i]), ops[i], x) && !(ops[i].Save? && ops[i].x == x) {
      assert all[..i] == ops[..i] && all[i] == ops[i];
    }
  }

  /** What one statement does to the result of `x`. */
  lemma ResultStep(s: Store, op: Op, x: AttemptId)
    ensures var t := Apply(s, op);
            if op.Save? && op.x == x then x in t.results && t.results[x] == op.result
            else
              && (x in t.results <==> x in s.results && !Ends(s, op, x))
              && (x in t.results ==>
                    var r := t.results[x];
                    r == s.results[x].(lease := r.lease, digest := r.digest, payload := r.payload, size := r.size))
  {
    hide Acked, Dropped, Raised;
  }

  /** A result is pending exactly if it was saved and since then neither collected by its
      digest nor discarded; it still is the one that was saved, but for re-stamping. */
  lemma {:induction false} PendingIff(ops: seq<Op>, x: AttemptId)
    ensures x in Replay(ops).results <==> exists j: nat :: SavedAt(ops, x, j)
    ensures forall j: nat :: SavedAt(ops, x, j) ==>
              && x in Replay(ops).results
              && var r, saved := Replay(ops).results[x], ops[j].result;
                 r == saved.(lease := r.lease, digest := r.digest, payload := r.payload, size := r.size)
  {
    hide Apply, Ends;
    if ops != [] {
      var init, last := ops[..|ops| - 1], ops[|ops| - 1];
      assert ops == init + [last];
      PendingIff(init, x);
      ResultStep(Replay(init), last, x);
      if last.Save? && last.x == x { assert SavedAt(ops, x, |init|); }
      forall j: nat | SavedAt(ops, x, j)
        ensures && x in Replay(ops).results
                && var r, saved := Replay(ops).results[x], ops[j].result;
                   r == saved.(lease := r.lease, digest := r.digest, payload := r.payload, size := r.size)
      {
        if j < |init| { SavedInit(init, last, x, j); }
      }
      if x in Replay(ops).results && !(last.Save? && last.x == x) {
        assert x in Replay(init).results && !Ends(Replay(init), last, x);
        var j: nat :| SavedAt(init, x, j);
        SavedSnoc(init, last, x, j);
      }
    }
  }
}
