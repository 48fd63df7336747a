/** The lines of a session log that carry a record, each with its position. */
module HistoryLines {
  import opened Options

  datatype Numbered<+R> = Numbered(index: nat, rec: R)

  /** `parse` is None for a blank line, malformed JSON, or JSON that is not an object. */
  function Records<R>(raw: seq<string>, parse: string -> Option<R>): seq<Numbered<R>> {
    if raw == [] then []
    else
      var init, last := Records(raw[..|raw| - 1], parse), parse(raw[|raw| - 1]);
      if last.Some? then init + [Numbered(|raw| - 1, last.value)] else init
  }

  ghost predicate Increasing<R>(lines: seq<Numbered<R>>) {
    forall i, j :: 0 <= i < j < |lines| ==> lines[i].index < lines[j].index
  }

  method ParseJsonlLines<R>(raw: seq<string>, parse: string -> Option<R>) returns (out: seq<Numbered<R>>)
    ensures out == Records(raw, parse)
  {
    out := [];
    var i := 0;
    while i < |raw|
      invariant 0 <= i <= |raw| && out == Records(raw[..i], parse)
    {
      var rec := parse(raw[i]);
      if rec.Some? { out := out + [Numbered(i, rec.value)]; }
      i := i + 1;
      assert raw[..i][..i - 1] == raw[..i - 1];
    }
    assert raw[..i] == raw;
  }

  lemma RecordsSnoc<R>(raw: seq<string>, parse: string -> Option<R>)
    requires raw != []
    ensures var init, last := raw[..|raw| - 1], parse(raw[|raw| - 1]);
            Records(raw, parse) ==
            if last.Some? then Records(init, parse) + [Numbered(|raw| - 1, last.value)] else Records(init, parse)
  {
  }

  /** Positions strictly increase, and every record is listed at its own line. */
  lemma {:induction false} RecordsInOrder<R>(raw: seq<string>, parse: string -> Option<R>)
    ensures Increasing(Records(raw, parse))
    ensures forall i :: 0 <= i < |Records(raw, parse)| ==>
              var n := Records(raw, parse)[i]; n.index < |raw| && parse(raw[n.index]) == Some(n.rec)
    ensures forall k :: 0 <= k < |raw| && parse(raw[k]).Some? ==> Numbered(k, parse(raw[k]).value) in Records(raw, parse)
  {
    if raw != [] {
      var init := raw[..|raw| - 1];
      RecordsInOrder(init, parse);
      RecordsSnoc(raw, parse);
      hide Records;
      assert forall k :: 0 <= k < |init| ==> init[k] == raw[k];
    }
  }

  /** Whole lines appended to a log leave the earlier records where they were. */
  lemma {:induction false} RecordsOfAppended<R>(raw: seq<string>, more: seq<string>, parse: string -> Option<R>)
    ensures |Records(raw, parse)| <= |Records(raw + more, parse)|
    ensures Records(raw + more, parse)[..|Records(raw, parse)|] == Records(raw, parse)
  {
    if more == [] {
      assert raw + more == raw;
    } else {
      RecordsOfAppended(raw, more[..|more| - 1], parse);
      assert (raw + more)[..|raw + more| - 1] == raw + more[..|more| - 1];
    }
  }
}
