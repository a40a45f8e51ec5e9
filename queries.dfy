/**
 * The aggregation query of src/queries.rs: build the fixed N1QL text, walk
 * the stream of row results in order, skip meta rows, decode data rows into
 * `AggregationResult`s and stop at the first stream error.
 *
 * The store's row stream is an input sequence and `serde_json::from_str` is
 * an abstract partial decoder `decode`. A decode failure reaches `.unwrap()`
 * and aborts the process; that is the `Abort` outcome, kept apart from the
 * function's own `Err(())`.
 */
module Queries {
  import opened Wrappers
  import Db

  newtype i32 = x: int | -0x8000_0000 <= x < 0x8000_0000

  /** One row of the group-by-count report. */
  datatype AggregationResult = AggregationResult(eventType: string, eventCount: i32)

  /** A row of a N1QL result stream: the trailer with query metadata, or a JSON data row. */
  datatype N1qlResult = Meta(meta: string) | Row(text: string)

  type RowResult<E> = Result<N1qlResult, E>

  /** How a call ends: it returns (success or `Err(())`), or `.unwrap()` panics on a row. */
  datatype Outcome<T> = Returned(result: Result<seq<T>, ()>) | Abort(rowText: string)

  type Decoder = string -> Option<AggregationResult>

  // ---------------------------------------------------------------------------
  // Query text

  const QueryHead: string := "\n        SELECT event_type, COUNT(event_type) event_count \n        FROM "
  const QueryTail: string := "\n        GROUP BY event_type\n        ORDER BY event_count DESC\n        "

  /** The template with its one placeholder filled in by the bucket name. */
  function AggregationQuery(): string {
    QueryHead + Db.BucketName + QueryTail
  }

  // ---------------------------------------------------------------------------
  // Specification

  /** A row the loop gets past: a meta row, or a data row that decodes. */
  predicate GoodRow<E>(row: RowResult<E>, decode: Decoder) {
    row.Ok? && (row.value.Row? ==> decode(row.value.text).Some?)
  }

  /** The index of the first row at or after i the loop stops at, or |rows| if there is none. */
  function FirstBadFrom<E>(rows: seq<RowResult<E>>, decode: Decoder, i: nat): (k: nat)
    requires i <= |rows|
    ensures i <= k <= |rows|
    ensures forall j :: i <= j < k ==> GoodRow(rows[j], decode)
    ensures k < |rows| ==> !GoodRow(rows[k], decode)
    decreases |rows| - i
  {
    if i == |rows| || !GoodRow(rows[i], decode) then i else FirstBadFrom(rows, decode, i + 1)
  }

  function FirstBad<E>(rows: seq<RowResult<E>>, decode: Decoder): nat {
    FirstBadFrom(rows, decode, 0)
  }

  /** What one row contributes to the output: its decoded record, if it is a data row that decodes. */
  function RowRecords<E>(row: RowResult<E>, decode: Decoder): seq<AggregationResult> {
    match row
    case Ok(Row(text)) => (match decode(text) case Some(x) => [x] case None => [])
    case _ => []
  }

  /** The decoded records of the data rows, in stream order. */
  function Decoded<E>(rows: seq<RowResult<E>>, decode: Decoder): seq<AggregationResult> {
    if rows == [] then [] else Decoded(rows[..|rows| - 1], decode) + RowRecords(rows[|rows| - 1], decode)
  }

  /** The texts of the data rows, in stream order. */
  function DataTexts<E>(rows: seq<RowResult<E>>): seq<string> {
    if rows == [] then []
    else DataTexts(rows[..|rows| - 1])
         + match rows[|rows| - 1] case Ok(Row(text)) => [text] case _ => []
  }

  /** The outcome of `make_aggregations_of_event_types` on a row stream. */
  function AggregationsSpec<E>(rows: seq<RowResult<E>>, decode: Decoder): Outcome<AggregationResult> {
    var k := FirstBad(rows, decode);
    if k == |rows| then Returned(Ok(Decoded(rows, decode)))
    else if rows[k].Err? then Returned(Err(()))
    else Abort(rows[k].value.text)
  }

  /** How many rows the call pulls from the stream. */
  function RowsConsumed<E>(rows: seq<RowResult<E>>, decode: Decoder): nat {
    var k := FirstBad(rows, decode);
    if k == |rows| then |rows| else k + 1
  }

  // ---------------------------------------------------------------------------
  // The loop

  /** `make_aggregations_of_event_types`: the row loop of src/queries.rs:24-42. */
  method MakeAggregationsOfEventTypes<E>(rows: seq<RowResult<E>>, decode: Decoder)
    returns (out: Outcome<AggregationResult>, consumed: nat)
    ensures out == AggregationsSpec(rows, decode)
    ensures consumed == RowsConsumed(rows, decode)
  {
    var aggs: seq<AggregationResult> := [];
    var i := 0;
    while i < |rows|
      invariant i <= |rows|
      invariant forall j :: 0 <= j < i ==> GoodRow(rows[j], decode)
      invariant aggs == Decoded(rows[..i], decode)
    {
      assert rows[..i + 1][..i] == rows[..i];
      match rows[i] {
        case Ok(Meta(_)) =>
        case Ok(Row(text)) =>
          match decode(text) {
            case None =>
              assert FirstBad(rows, decode) == i;
              out, consumed := Abort(text), i + 1;
              return;
            case Some(result) =>
              aggs := aggs + [result];
          }
        case Err(_) =>
          assert FirstBad(rows, decode) == i;
          out, consumed := Returned(Err(())), i + 1;
          return;
      }
      i := i + 1;
    }
    assert rows[..i] == rows;
    out, consumed := Returned(Ok(aggs)), |rows|;
  }

  // ---------------------------------------------------------------------------
  // Properties

  /** The query text is the fixed template with the bucket name `events` as its only substituted value. */
  lemma AggregationQueryReadsEvents()
    ensures AggregationQuery() == QueryHead + "events" + QueryTail
    ensures AggregationQuery()[|QueryHead| - 5 .. |QueryHead| + 6] == "FROM events"
  {
  }

  /** FirstBad is the unique index the loop stops at. */
  lemma FirstBadIs<E>(rows: seq<RowResult<E>>, decode: Decoder, k: nat)
    requires k <= |rows|
    requires forall j :: 0 <= j < k ==> GoodRow(rows[j], decode)
    requires k < |rows| ==> !GoodRow(rows[k], decode)
    ensures FirstBad(rows, decode) == k
  {
  }

  lemma {:induction false} DecodedAppend<E>(a: seq<RowResult<E>>, b: seq<RowResult<E>>, decode: Decoder)
    ensures Decoded(a + b, decode) == Decoded(a, decode) + Decoded(b, decode)
    decreases |b|
  {
    if b == [] {
      assert a + b == a;
    } else {
      var b' := b[..|b| - 1];
      var x := b[|b| - 1];
      assert (a + b)[..|a + b| - 1] == a + b';
      assert (a + b)[|a + b| - 1] == x;
      DecodedAppend(a, b', decode);
      assert Decoded(a + b, decode) == Decoded(a + b', decode) + RowRecords(x, decode);
      assert Decoded(b, decode) == Decoded(b', decode) + RowRecords(x, decode);
    }
  }

  /** When every row is good, each data row gives exactly one record, its own decoding, in stream order. */
  lemma {:induction false} DecodedMatchesDataRows<E>(rows: seq<RowResult<E>>, decode: Decoder)
    requires forall j :: 0 <= j < |rows| ==> GoodRow(rows[j], decode)
    ensures |Decoded(rows, decode)| == |DataTexts(rows)| <= |rows|
    ensures forall j :: 0 <= j < |DataTexts(rows)| ==> decode(DataTexts(rows)[j]) == Some(Decoded(rows, decode)[j])
  {
    if rows != [] {
      var init := rows[..|rows| - 1];
      DecodedMatchesDataRows(init, decode);
      var last := rows[|rows| - 1];
      assert GoodRow(last, decode);
    }
  }

  /** The call succeeds exactly when no row is a stream error or an undecodable data row. */
  lemma SucceedsIffAllRowsGood<E>(rows: seq<RowResult<E>>, decode: Decoder)
    ensures AggregationsSpec(rows, decode).Returned? && AggregationsSpec(rows, decode).result.Ok?
      <==> forall j :: 0 <= j < |rows| ==> GoodRow(rows[j], decode)
  {
    var k := FirstBad(rows, decode);
    if k < |rows| {
      assert !GoodRow(rows[k], decode);
    }
  }

  /**
   * On success the output holds one record per data row, each the decoding of
   * that row, in the order the rows arrived; the whole stream was consumed.
   */
  lemma OutputIsDecodedDataRowsInOrder<E>(rows: seq<RowResult<E>>, decode: Decoder, xs: seq<AggregationResult>)
    requires AggregationsSpec(rows, decode) == Returned(Ok(xs))
    ensures |xs| == |DataTexts(rows)| <= |rows|
    ensures forall j :: 0 <= j < |xs| ==> decode(DataTexts(rows)[j]) == Some(xs[j])
    ensures RowsConsumed(rows, decode) == |rows|
  {
    SucceedsIffAllRowsGood(rows, decode);
    DecodedMatchesDataRows(rows, decode);
  }

  /** The stop index of a concatenation: the first part's, or past it the second part's. */
  lemma FirstBadAppend<E>(a: seq<RowResult<E>>, b: seq<RowResult<E>>, decode: Decoder)
    ensures FirstBad(a + b, decode)
      == if FirstBad(a, decode) < |a| then FirstBad(a, decode) else |a| + FirstBad(b, decode)
  {
    var ka, kb := FirstBad(a, decode), FirstBad(b, decode);
    if ka < |a| {
      FirstBadIs(a + b, decode, ka);
    } else {
      assert forall j :: |a| <= j < |a| + kb ==> (a + b)[j] == b[j - |a|];
      FirstBadIs(a + b, decode, |a| + kb);
    }
  }

  /**
   * A meta row adds nothing to the output and does not stop the loop: the stop
   * index, and the number of rows pulled, move by one if the meta row comes before it.
   */
  lemma MetaRowIgnored<E>(pre: seq<RowResult<E>>, m: string, post: seq<RowResult<E>>, decode: Decoder)
    ensures AggregationsSpec(pre + [Ok(Meta(m))] + post, decode) == AggregationsSpec(pre + post, decode)
    ensures FirstBad(pre + [Ok(Meta(m))] + post, decode)
      == FirstBad(pre + post, decode) + (if FirstBad(pre, decode) < |pre| then 0 else 1)
    ensures RowsConsumed(pre + [Ok(Meta(m))] + post, decode)
      == RowsConsumed(pre + post, decode) + (if FirstBad(pre, decode) < |pre| then 0 else 1)
  {
    var meta: seq<RowResult<E>> := [Ok(Meta(m))];
    var withMeta, without := pre + meta + post, pre + post;
    var kp, kq := FirstBad(pre, decode), FirstBad(post, decode);
    var k1, k2 := FirstBad(withMeta, decode), FirstBad(without, decode);
    assert k1 == if kp < |pre| then kp else |pre| + 1 + kq by {
      FirstBadIs(meta, decode, 1);
      FirstBadAppend(pre, meta, decode);
      FirstBadAppend(pre + meta, post, decode);
    }
    assert k2 == if kp < |pre| then kp else |pre| + kq by {
      FirstBadAppend(pre, post, decode);
    }
    if kp < |pre| {
      assert withMeta[kp] == pre[kp] == without[kp];
    } else if kq < |post| {
      assert withMeta[|pre| + 1 + kq] == post[kq] == without[|pre| + kq];
    } else {
      var dp, dq := Decoded(pre, decode), Decoded(post, decode);
      assert Decoded(meta, decode) == [] by { assert meta[..0] == []; }
      assert Decoded(pre + meta, decode) == dp by {
        DecodedAppend(pre, meta, decode);
        assert dp + [] == dp;
      }
      assert Decoded(withMeta, decode) == dp + dq by { DecodedAppend(pre + meta, post, decode); }
      assert Decoded(without, decode) == dp + dq by { DecodedAppend(pre, post, decode); }
    }
  }

  /**
   * The first stream error makes the call return `Err(())`, whatever follows;
   * no partial list escapes and no later row is pulled.
   */
  lemma StreamErrorStops<E>(pre: seq<RowResult<E>>, e: E, post: seq<RowResult<E>>, decode: Decoder)
    requires forall j :: 0 <= j < |pre| ==> GoodRow(pre[j], decode)
    ensures AggregationsSpec(pre + [Err(e)] + post, decode) == Returned(Err(()))
    ensures RowsConsumed(pre + [Err(e)] + post, decode) == |pre| + 1
  {
    var rows := pre + [Err(e)] + post;
    FirstBadIs(rows, decode, |pre|);
  }

  /** A data row that does not decode aborts through `unwrap`; that is not the `Err(())` return. */
  lemma DecodeFailureAborts<E>(pre: seq<RowResult<E>>, text: string, post: seq<RowResult<E>>, decode: Decoder)
    requires forall j :: 0 <= j < |pre| ==> GoodRow(pre[j], decode)
    requires decode(text).None?
    ensures AggregationsSpec(pre + [Ok(Row(text))] + post, decode) == Abort(text)
    ensures AggregationsSpec(pre + [Ok(Row(text))] + post, decode) != Returned(Err(()))
    ensures RowsConsumed(pre + [Ok(Row(text))] + post, decode) == |pre| + 1
  {
    var rows := pre + [Ok(Row(text))] + post;
    FirstBadIs(rows, decode, |pre|);
  }

  /** A stream of meta rows only (the empty stream included) gives `Ok` of an empty list, not `Err(())`. */
  lemma {:induction false} NoDataRowsGivesEmptyOk<E>(rows: seq<RowResult<E>>, decode: Decoder)
    requires forall j :: 0 <= j < |rows| ==> rows[j].Ok? && rows[j].value.Meta?
    ensures AggregationsSpec(rows, decode) == Returned(Ok([]))
    ensures AggregationsSpec(rows, decode) != Returned(Err(()))
  {
    FirstBadIs(rows, decode, |rows|);
    if rows != [] {
      var init := rows[..|rows| - 1];
      NoDataRowsGivesEmptyOk(init, decode);
      FirstBadIs(init, decode, |init|);
      assert Decoded(init, decode) == [];
      assert RowRecords(rows[|rows| - 1], decode) == [];
      assert Decoded(rows, decode) == Decoded(init, decode) + RowRecords(rows[|rows| - 1], decode);
    }
  }
}
