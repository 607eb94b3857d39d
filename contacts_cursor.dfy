/**
 * The cursor `get_all` and `find` hand out (`ContactDbCursor` in
 * services/contacts/src/db.rs). Its worker owns the rows of one prepared
 * statement; each `Next` walks them, fills a contact per row and answers
 * with the batch.
 *
 * The statement's rows are a sequence of fetch outcomes, and whether the
 * main and additional data of a row could be read is part of the row: the
 * database behind them is not part of this model. The worker thread and its
 * channels become a method call: the answer is the first message the worker
 * sends for that command, since the caller receives only that one.
 */
module ContactsCursor {

  import opened Wrappers
  import opened Common
  import opened ContactsTypes

  /** What one `rows.next()` of the statement gives; `T` is what a loaded row fills. */
  datatype Fetched<T> =
    | FetchError
    | UnreadableId
    | Row(contact: T, mainOk: bool, additionalOk: bool)

  /** `batch_size as usize`: a negative size wraps around to a huge one. */
  function BatchLimit(batchSize: i64): (limit: u64)
    ensures batchSize >= 0 ==> limit == batchSize
    ensures batchSize < 0 ==> limit >= U64_LIMIT / 2
  {
    if batchSize >= 0 then batchSize else batchSize + U64_LIMIT
  }

  /**
   * The row yields a contact: its id reads, its main data fills and, unless
   * only main data is wanted, its additional data fills.
   */
  predicate Loaded<T>(r: Fetched<T>, onlyMainData: bool) {
    r.Row? && r.mainOk && (onlyMainData || r.additionalOk)
  }

  /** What one row yields: its contact, or nothing. */
  function Yield<T>(r: Fetched<T>, onlyMainData: bool): seq<T> {
    if Loaded(r, onlyMainData) then [r.contact] else []
  }

  /** The contacts the rows yield, in query order. */
  function Contacts<T>(rows: seq<Fetched<T>>, onlyMainData: bool): (contacts: seq<T>)
    ensures |contacts| <= |rows|
    decreases |rows|
  {
    if |rows| == 0 then [] else Yield(rows[0], onlyMainData) + Contacts(rows[1..], onlyMainData)
  }

  predicate NoFetchError<T>(rows: seq<Fetched<T>>) {
    forall i :: 0 <= i < |rows| ==> !rows[i].FetchError?
  }

  /** The answer to one `Next` and the rows left after it. */
  datatype Reply<T> = Reply(answer: Option<seq<T>>, rest: seq<Fetched<T>>)

  /** The message the caller receives: the first one sent, else this one. */
  function FirstSent<T>(sent: Option<Option<seq<T>>>, message: Option<seq<T>>): Option<seq<T>> {
    if sent.Some? then sent.value else message
  }

  /**
   * The inner loop of a `Next`, from `results` collected so far and the
   * message already sent, if any. At the end of the rows it sends what it
   * has (possibly nothing); a fetch error sends `None` and goes on; a row
   * that does not load is skipped; the batch is sent once it reaches the
   * limit.
   */
  function Collect<T>(rows: seq<Fetched<T>>, limit: nat, onlyMainData: bool, results: seq<T>,
                      sent: Option<Option<seq<T>>>): (r: Reply<T>)
    ensures |r.rest| <= |rows| && r.rest == rows[|rows| - |r.rest|..]
    ensures |rows| > 0 ==> |r.rest| < |rows|
    decreases |rows|
  {
    if |rows| == 0 then Reply(FirstSent(sent, Some(results)), [])
    else
      var fetched := rows[0];
      if fetched.FetchError? then
        Collect(rows[1..], limit, onlyMainData, results, if sent.None? then Some(None) else sent)
      else if !Loaded(fetched, onlyMainData) then
        Collect(rows[1..], limit, onlyMainData, results, sent)
      else if |results + [fetched.contact]| == limit then
        Reply(FirstSent(sent, Some(results + [fetched.contact])), rows[1..])
      else
        Collect(rows[1..], limit, onlyMainData, results + [fetched.contact], sent)
  }

  /** One `Next` of a cursor. */
  function NextBatch<T>(rows: seq<Fetched<T>>, batchSize: i64, onlyMainData: bool): (r: Reply<T>)
    ensures |r.rest| <= |rows| && r.rest == rows[|rows| - |r.rest|..]
    ensures |rows| > 0 ==> |r.rest| < |rows|
  {
    Collect(rows, BatchLimit(batchSize), onlyMainData, [], None)
  }

  class ContactDbCursor {
    /** The rows of the statement not yet fetched. */
    var rows: seq<Fetched<ContactInfo>>
    const batchSize: i64
    const onlyMainData: bool

    /**
     * `ContactDbCursor::new`: the rows of the prepared statement, or none
     * when it could not be prepared.
     */
    constructor(batchSize: i64, onlyMainData: bool, prepared: Option<seq<Fetched<ContactInfo>>>)
      ensures this.rows == (if prepared.Some? then prepared.value else [])
      ensures this.batchSize == batchSize && this.onlyMainData == onlyMainData
    {
      this.batchSize := batchSize;
      this.onlyMainData := onlyMainData;
      this.rows := if prepared.Some? then prepared.value else [];
    }

    /** A `Next` command: the worker's loop over the rows until it sends a batch. */
    method Next() returns (batch: Option<seq<ContactInfo>>)
      modifies this
      ensures Reply(batch, rows) == NextBatch(old(rows), batchSize, onlyMainData)
    {
      var limit := BatchLimit(batchSize);
      var results: seq<ContactInfo> := [];
      var sent: Option<Option<seq<ContactInfo>>> := None;
      while true
        invariant Collect(rows, limit, onlyMainData, results, sent) == NextBatch(old(rows), batchSize, onlyMainData)
        decreases |rows|
      {
        if |rows| == 0 {
          batch := FirstSent(sent, Some(results));
          return;
        }
        var fetched := rows[0];
        rows := rows[1..];
        if fetched.FetchError? {
          if sent.None? {
            sent := Some(None);
          }
        } else if Loaded(fetched, onlyMainData) {
          results := results + [fetched.contact];
          if |results| == limit {
            batch := FirstSent(sent, Some(results));
            return;
          }
        }
      }
    }
  }

  // ---------------------------------------------------------------------
  // What a Next answers
  // ---------------------------------------------------------------------

  /** The rows after the first are free of fetch errors too. */
  lemma NoFetchErrorTail<T>(rows: seq<Fetched<T>>)
    requires |rows| > 0 && NoFetchError(rows)
    ensures NoFetchError(rows[1..]) && !rows[0].FetchError?
  {
    forall i | 0 <= i < |rows[1..]| ensures !rows[1..][i].FetchError? { assert rows[1..][i] == rows[i + 1]; }
  }

  /**
   * Without fetch errors a `Next` answers a batch: the contacts collected
   * so far and then the next ones the rows yield, at most `limit` in all
   * (any number for a limit of 0), and fewer only when the rows ran out;
   * the batch and what the remaining rows yield are what the rows yield.
   */
  lemma {:induction false} CollectBatch<T>(rows: seq<Fetched<T>>, limit: nat, onlyMainData: bool, results: seq<T>)
    requires NoFetchError(rows)
    requires limit == 0 || |results| < limit
    ensures var r := Collect(rows, limit, onlyMainData, results, None);
      && r.answer.Some?
      && r.answer.value + Contacts(r.rest, onlyMainData) == results + Contacts(rows, onlyMainData)
      && (limit > 0 ==> |r.answer.value| <= limit)
      && (|r.answer.value| != limit || limit == 0 ==> r.rest == [])
    decreases |rows|
  {
    var r := Collect(rows, limit, onlyMainData, results, None);
    if |rows| > 0 {
      var fetched := rows[0];
      var tail := rows[1..];
      NoFetchErrorTail(rows);
      var here := Yield(fetched, onlyMainData);
      assert Contacts(rows, onlyMainData) == here + Contacts(tail, onlyMainData);
      Associate(results, here, Contacts(tail, onlyMainData));
      CollectStep(rows, limit, onlyMainData, results, None);
      if !(Loaded(fetched, onlyMainData) && |results + here| == limit) {
        CollectBatch(tail, limit, onlyMainData, results + here);
      }
    } else {
      Associate(results, [], []);
    }
  }

  /** One step of the inner loop, with what the row yields named. */
  lemma CollectStep<T>(rows: seq<Fetched<T>>, limit: nat, onlyMainData: bool, results: seq<T>,
                       sent: Option<Option<seq<T>>>)
    requires |rows| > 0
    ensures var more := results + Yield(rows[0], onlyMainData);
      Collect(rows, limit, onlyMainData, results, sent) ==
        if Loaded(rows[0], onlyMainData) && |more| == limit then Reply(FirstSent(sent, Some(more)), rows[1..])
        else Collect(rows[1..], limit, onlyMainData, more,
                     if rows[0].FetchError? && sent.None? then Some(None) else sent)
  {
    if !Loaded(rows[0], onlyMainData) {
      Associate(results, [], []);
    }
  }

  /** Once a message is sent, it is the answer. */
  lemma {:induction false} CollectKeepsSent<T>(rows: seq<Fetched<T>>, limit: nat, onlyMainData: bool, results: seq<T>,
                                                sent: Option<Option<seq<T>>>)
    requires sent.Some?
    ensures Collect(rows, limit, onlyMainData, results, sent).answer == sent.value
    decreases |rows|
  {
    if |rows| > 0 {
      CollectStep(rows, limit, onlyMainData, results, sent);
      if !(Loaded(rows[0], onlyMainData) && |results + Yield(rows[0], onlyMainData)| == limit) {
        CollectKeepsSent(rows[1..], limit, onlyMainData, results + Yield(rows[0], onlyMainData), sent);
      }
    }
  }

  /**
   * A fetch error turns the answer into `None` (which ends the caller's
   * iteration) exactly when it happens among the rows the `Next` walked.
   */
  lemma {:induction false} CollectFetchError<T>(rows: seq<Fetched<T>>, limit: nat, onlyMainData: bool, results: seq<T>)
    ensures var r := Collect(rows, limit, onlyMainData, results, None);
      r.answer.None? <==> exists i :: 0 <= i < |rows| - |r.rest| && rows[i].FetchError?
    decreases |rows|
  {
    if |rows| > 0 {
      var r := Collect(rows, limit, onlyMainData, results, None);
      var fetched := rows[0];
      var more := results + Yield(fetched, onlyMainData);
      CollectStep(rows, limit, onlyMainData, results, None);
      if fetched.FetchError? {
        CollectKeepsSent(rows[1..], limit, onlyMainData, more, Some(None));
        assert 0 < |rows| - |r.rest|;
      } else if Loaded(fetched, onlyMainData) && |more| == limit {
        assert |rows| - |r.rest| == 1;
      } else {
        var r1 := Collect(rows[1..], limit, onlyMainData, more, None);
        CollectFetchError(rows[1..], limit, onlyMainData, more);
        if r.answer.None? {
          var i :| 0 <= i < |rows[1..]| - |r1.rest| && rows[1..][i].FetchError?;
          assert rows[i + 1].FetchError?;
        }
        if exists i :: 0 <= i < |rows| - |r.rest| && rows[i].FetchError? {
          var i :| 0 <= i < |rows| - |r.rest| && rows[i].FetchError?;
          assert i > 0 && rows[1..][i - 1].FetchError?;
        }
      }
    }
  }

  /**
   * Once the rows yield nothing more, a `Next` answers the empty batch and
   * leaves no rows; before that its batch is never empty.
   */
  lemma EmptyBatchMeansEnd<T>(rows: seq<Fetched<T>>, batchSize: i64, onlyMainData: bool)
    requires NoFetchError(rows)
    ensures var r := NextBatch(rows, batchSize, onlyMainData);
      && r.answer.Some?
      && (r.answer.value == [] <==> Contacts(rows, onlyMainData) == [])
      && (r.answer.value == [] ==> r.rest == [])
  {
    var limit := BatchLimit(batchSize);
    CollectBatch(rows, limit, onlyMainData, []);
    var r := NextBatch(rows, batchSize, onlyMainData);
    var b := r.answer.value;
    var later := Contacts(r.rest, onlyMainData);
    Associate([], Contacts(rows, onlyMainData), []);
    assert b + later == Contacts(rows, onlyMainData);
    if b == [] {
      assert r.rest == [];
      assert later == [];
      Associate(b, [], []);
    }
  }

  // ---------------------------------------------------------------------
  // Draining a cursor
  // ---------------------------------------------------------------------

  /** A suffix of rows without fetch errors has none either. */
  lemma SuffixHasNoFetchError<T>(rows: seq<Fetched<T>>, k: nat)
    requires NoFetchError(rows) && k <= |rows|
    ensures NoFetchError(rows[k..])
  {
    forall i | 0 <= i < |rows[k..]| ensures !rows[k..][i].FetchError? { assert rows[k..][i] == rows[k + i]; }
  }

  /** The batches successive `Next`s answer until the first empty one. */
  function Batches<T>(rows: seq<Fetched<T>>, batchSize: i64, onlyMainData: bool): seq<seq<T>>
    requires NoFetchError(rows)
    decreases |rows|
  {
    if |rows| == 0 then []
    else
      var r := NextBatch(rows, batchSize, onlyMainData);
      CollectBatch(rows, BatchLimit(batchSize), onlyMainData, []);
      SuffixHasNoFetchError(rows, |rows| - |r.rest|);
      if r.answer.value == [] then [] else [r.answer.value] + Batches(r.rest, batchSize, onlyMainData)
  }

  function Flatten<T>(batches: seq<seq<T>>): seq<T>
    decreases |batches|
  {
    if |batches| == 0 then [] else batches[0] + Flatten(batches[1..])
  }

  /** Rows that yield nothing more give no further batch. */
  lemma BatchesEnd<T>(rows: seq<Fetched<T>>, batchSize: i64, onlyMainData: bool)
    requires NoFetchError(rows) && Contacts(rows, onlyMainData) == []
    ensures Batches(rows, batchSize, onlyMainData) == []
  {
    EmptyBatchMeansEnd(rows, batchSize, onlyMainData);
  }

  /** One `Next` of the drain: its batch, then the batches of the rows it leaves. */
  lemma DrainStep<T>(rows: seq<Fetched<T>>, batchSize: i64, onlyMainData: bool) returns (b: seq<T>, rest: seq<Fetched<T>>)
    requires NoFetchError(rows)
    requires Contacts(rows, onlyMainData) != []
    ensures NextBatch(rows, batchSize, onlyMainData) == Reply(Some(b), rest)
    ensures NoFetchError(rest) && |rest| < |rows|
    ensures Batches(rows, batchSize, onlyMainData) == [b] + Batches(rest, batchSize, onlyMainData)
    ensures b != [] && b + Contacts(rest, onlyMainData) == Contacts(rows, onlyMainData)
    ensures BatchLimit(batchSize) > 0 ==> |b| <= BatchLimit(batchSize)
    ensures rest != [] ==> |b| == BatchLimit(batchSize)
  {
    var limit := BatchLimit(batchSize);
    var r := NextBatch(rows, batchSize, onlyMainData);
    CollectBatch(rows, limit, onlyMainData, []);
    EmptyBatchMeansEnd(rows, batchSize, onlyMainData);
    SuffixHasNoFetchError(rows, |rows| - |r.rest|);
    Associate([], Contacts(rows, onlyMainData), []);
    b, rest := r.answer.value, r.rest;
  }

  /**
   * Draining a cursor without fetch errors: the batches, put end to end,
   * are the contacts the rows yield in query order.
   */
  lemma {:induction false} DrainYieldsAllContacts<T>(rows: seq<Fetched<T>>, batchSize: i64, onlyMainData: bool)
    requires NoFetchError(rows)
    ensures Flatten(Batches(rows, batchSize, onlyMainData)) == Contacts(rows, onlyMainData)
    decreases |rows|
  {
    if Contacts(rows, onlyMainData) == [] {
      BatchesEnd(rows, batchSize, onlyMainData);
    } else {
      var b, rest := DrainStep(rows, batchSize, onlyMainData);
      DrainYieldsAllContacts(rest, batchSize, onlyMainData);
      var bs := Batches(rows, batchSize, onlyMainData);
      assert bs[1..] == Batches(rest, batchSize, onlyMainData);
    }
  }

  /**
   * Batch sizes as a drain answers them: none is empty; each holds at most
   * `batch_size` contacts when that is positive, and every batch but the
   * last holds exactly `BatchLimit(batchSize)`.
   */
  predicate WellSized<T>(bs: seq<seq<T>>, batchSize: i64) {
    && (forall i :: 0 <= i < |bs| ==> |bs[i]| > 0)
    && (forall i :: 0 <= i < |bs| && batchSize > 0 ==> |bs[i]| <= batchSize)
    && (forall i :: 0 <= i < |bs| - 1 ==> |bs[i]| == BatchLimit(batchSize))
  }

  /** A full (or last) non-empty batch in front of well-sized batches keeps them well sized. */
  lemma WellSizedCons<T>(b: seq<T>, tail: seq<seq<T>>, batchSize: i64)
    requires WellSized(tail, batchSize)
    requires b != [] && (batchSize > 0 ==> |b| <= batchSize)
    requires tail != [] ==> |b| == BatchLimit(batchSize)
    ensures WellSized([b] + tail, batchSize)
  {
    var bs := [b] + tail;
    forall i | 1 <= i < |bs| ensures bs[i] == tail[i - 1] { }
  }

  /** Draining a cursor without fetch errors answers well-sized batches. */
  lemma {:induction false} DrainBatchSizes<T>(rows: seq<Fetched<T>>, batchSize: i64, onlyMainData: bool)
    requires NoFetchError(rows)
    ensures WellSized(Batches(rows, batchSize, onlyMainData), batchSize)
    decreases |rows|
  {
    if Contacts(rows, onlyMainData) == [] {
      BatchesEnd(rows, batchSize, onlyMainData);
    } else {
      var b, rest := DrainStep(rows, batchSize, onlyMainData);
      DrainBatchSizes(rest, batchSize, onlyMainData);
      if rest == [] {
        assert Contacts(rest, onlyMainData) == [];
        BatchesEnd(rest, batchSize, onlyMainData);
      }
      WellSizedCons(b, Batches(rest, batchSize, onlyMainData), batchSize);
    }
  }
}
