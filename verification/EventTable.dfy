/** The `events` table as a relation: its rows in insertion order, and the queries
    that `EventLog` runs over it. */
module EventTable {
  import opened JobTypes

  /** `WHERE attempt_id = x`. */
  function RowsOf(rows: seq<EventRow>, x: AttemptId): (r: seq<EventRow>)
    ensures |r| <= |rows|
    ensures forall i :: 0 <= i < |r| ==> r[i].attempt == x
  {
    if rows == [] then []
    else
      var last := rows[|rows| - 1];
      if last.attempt == x then RowsOf(rows[..|rows| - 1], x) + [last] else RowsOf(rows[..|rows| - 1], x)
  }

  /** `DELETE WHERE attempt_id = x AND seq <= k`. */
  function Acked(rows: seq<EventRow>, x: AttemptId, k: int): (r: seq<EventRow>)
    ensures |r| <= |rows|
  {
    if rows == [] then []
    else
      var last := rows[|rows| - 1];
      if last.attempt == x && last.seqNo <= k then Acked(rows[..|rows| - 1], x, k) else Acked(rows[..|rows| - 1], x, k) + [last]
  }

  /** `DELETE WHERE attempt_id = x`. */
  function Dropped(rows: seq<EventRow>, x: AttemptId): (r: seq<EventRow>)
    ensures |r| <= |rows|
  {
    if rows == [] then []
    else
      var last := rows[|rows| - 1];
      if last.attempt == x then Dropped(rows[..|rows| - 1], x) else Dropped(rows[..|rows| - 1], x) + [last]
  }

  /** `SUM(bytes)`. */
  function Bytes(rows: seq<EventRow>): nat {
    if rows == [] then 0 else Bytes(rows[..|rows| - 1]) + rows[|rows| - 1].bytes
  }

  function InsertBySeq(rows: seq<EventRow>, row: EventRow): seq<EventRow> {
    if rows == [] || rows[|rows| - 1].seqNo <= row.seqNo then rows + [row]
    else InsertBySeq(rows[..|rows| - 1], row) + [rows[|rows| - 1]]
  }

  /** `ORDER BY seq`. */
  function SortBySeq(rows: seq<EventRow>): seq<EventRow> {
    if rows == [] then [] else InsertBySeq(SortBySeq(rows[..|rows| - 1]), rows[|rows| - 1])
  }

  /** `WHERE attempt_id = x AND seq > k ORDER BY seq`. */
  function EventsAfter(rows: seq<EventRow>, x: AttemptId, k: int): seq<EventRow> {
    SortBySeq(RowsOf(Acked(rows, x, k), x))
  }

  /** Row `i` carries the sequence number `first + i`. */
  ghost predicate Contiguous(rows: seq<EventRow>, first: int) {
    forall i :: 0 <= i < |rows| ==> rows[i].seqNo == first + i
  }

  lemma RowsOfSnoc(rows: seq<EventRow>, row: EventRow, x: AttemptId)
    ensures RowsOf(rows + [row], x) == if row.attempt == x then RowsOf(rows, x) + [row] else RowsOf(rows, x)
  {
    assert (rows + [row])[..|rows|] == rows;
  }

  lemma AckedSnoc(rows: seq<EventRow>, row: EventRow, x: AttemptId, k: int)
    ensures Acked(rows + [row], x, k) ==
            if row.attempt == x && row.seqNo <= k then Acked(rows, x, k) else Acked(rows, x, k) + [row]
  {
    assert (rows + [row])[..|rows|] == rows;
  }

  lemma {:induction false} RowsOfAckedOther(rows: seq<EventRow>, x: AttemptId, k: int, y: AttemptId)
    requires y != x
    ensures RowsOf(Acked(rows, x, k), y) == RowsOf(rows, y)
  {
    if rows != [] {
      var init, last := rows[..|rows| - 1], rows[|rows| - 1];
      RowsOfAckedOther(init, x, k, y);
      RowsOfSnoc(Acked(init, x, k), last, y);
    }
  }

  lemma {:induction false} RowsOfAcked(rows: seq<EventRow>, x: AttemptId, k: int)
    ensures RowsOf(Acked(rows, x, k), x) == Acked(RowsOf(rows, x), x, k)
  {
    if rows != [] {
      var init, last := rows[..|rows| - 1], rows[|rows| - 1];
      RowsOfAcked(init, x, k);
      assert rows == init + [last];
      AckedSnoc(init, last, x, k);
      RowsOfSnoc(init, last, x);
      RowsOfSnoc(Acked(init, x, k), last, x);
      AckedSnoc(RowsOf(init, x), last, x, k);
      hide RowsOf, Acked;
    }
  }

  lemma {:induction false} RowsOfDropped(rows: seq<EventRow>, x: AttemptId, y: AttemptId)
    ensures RowsOf(Dropped(rows, x), y) == if y == x then [] else RowsOf(rows, y)
  {
    if rows != [] {
      var init, last := rows[..|rows| - 1], rows[|rows| - 1];
      RowsOfDropped(init, x, y);
      var a := Dropped(init, x);
      assert (a + [last])[..|a|] == a;
    }
  }

  /** A cumulative ack cuts a contiguous window from the left, and nothing else. */
  lemma {:induction false} AckedContiguous(rows: seq<EventRow>, x: AttemptId, first: int, k: int)
    requires forall i :: 0 <= i < |rows| ==> rows[i].attempt == x
    requires Contiguous(rows, first)
    ensures Acked(rows, x, k) ==
            if k < first then rows
            else if k - first + 1 >= |rows| then []
            else rows[k - first + 1..]
  {
    if rows != [] {
      var init, last := rows[..|rows| - 1], rows[|rows| - 1];
      AckedContiguous(init, x, first, k);
      assert rows == init + [last];
      AckedSnoc(init, last, x, k);
      hide Acked;
    }
  }

  lemma {:induction false} SortContiguous(rows: seq<EventRow>, first: int)
    requires Contiguous(rows, first)
    ensures SortBySeq(rows) == rows
  {
    if rows != [] {
      var init, last := rows[..|rows| - 1], rows[|rows| - 1];
      assert SortBySeq(init) == init by { SortContiguous(init, first); }
      assert InsertBySeq(init, last) == init + [last] by {
        if init != [] { assert init[|init| - 1].seqNo == last.seqNo - 1; }
      }
    }
  }

  lemma {:induction false} BytesConcat(a: seq<EventRow>, b: seq<EventRow>)
    ensures Bytes(a + b) == Bytes(a) + Bytes(b)
  {
    if b == [] {
      assert a + b == a;
    } else {
      BytesConcat(a, b[..|b| - 1]);
      assert (a + b)[..|a + b| - 1] == a + b[..|b| - 1];
    }
  }

  lemma {:induction false} BytesSplit(rows: seq<EventRow>, x: AttemptId)
    ensures Bytes(rows) == Bytes(RowsOf(rows, x)) + Bytes(Dropped(rows, x))
  {
    if rows != [] {
      var init, last := rows[..|rows| - 1], rows[|rows| - 1];
      BytesSplit(init, x);
      BytesConcat(RowsOf(init, x), [last]);
      BytesConcat(Dropped(init, x), [last]);
    }
  }

  /** The unacked bytes of a set of attempts, attempt by attempt. */
  ghost function BytesOver(rows: seq<EventRow>, attempts: set<AttemptId>): nat {
    if attempts == {} then 0
    else
      var x :| x in attempts;
      Bytes(RowsOf(rows, x)) + BytesOver(rows, attempts - {x})
  }

  lemma {:induction false} DroppedAttempts(rows: seq<EventRow>, x: AttemptId, attempts: set<AttemptId>)
    requires forall r :: r in rows ==> r.attempt in attempts
    ensures forall r :: r in Dropped(rows, x) ==> r in rows && r.attempt in attempts - {x}
  {
    if rows != [] {
      var init, last := rows[..|rows| - 1], rows[|rows| - 1];
      assert rows == init + [last];
      DroppedAttempts(init, x, attempts);
    }
  }

  lemma {:induction false} BytesOverDropped(rows: seq<EventRow>, x: AttemptId, attempts: set<AttemptId>)
    requires x !in attempts
    ensures BytesOver(Dropped(rows, x), attempts) == BytesOver(rows, attempts)
    decreases attempts
  {
    if attempts != {} {
      var y :| y in attempts && BytesOver(rows, attempts) == Bytes(RowsOf(rows, y)) + BytesOver(rows, attempts - {y});
      forall z | z in attempts
        ensures RowsOf(Dropped(rows, x), z) == RowsOf(rows, z)
      {
        RowsOfDropped(rows, x, z);
      }
      forall z | z in attempts
        ensures BytesOver(Dropped(rows, x), attempts - {z}) == BytesOver(rows, attempts - {z})
      {
        BytesOverDropped(rows, x, attempts - {z});
      }
    }
  }

  lemma SomeAttempt(rows: seq<EventRow>, attempts: set<AttemptId>)
    requires forall r :: r in rows ==> r.attempt in attempts
    ensures rows == [] || exists x :: x in attempts
  {
    if rows != [] {
      assert rows[0] in rows;
    }
  }

  /** The connection total is the sum of the per-attempt totals. */
  lemma {:induction false} ConnectionTotal(rows: seq<EventRow>, attempts: set<AttemptId>)
    requires forall r :: r in rows ==> r.attempt in attempts
    ensures Bytes(rows) == BytesOver(rows, attempts)
    decreases attempts
  {
    if attempts == {} {
      SomeAttempt(rows, attempts);
    } else {
      var x :| x in attempts && BytesOver(rows, attempts) == Bytes(RowsOf(rows, x)) + BytesOver(rows, attempts - {x});
      BytesSplit(rows, x);
      DroppedAttempts(rows, x, attempts);
      ConnectionTotal(Dropped(rows, x), attempts - {x});
      BytesOverDropped(rows, x, attempts - {x});
    }
  }
}
