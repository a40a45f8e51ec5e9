/**
 * The bucket connector of src/db.rs: open a bucket, and while the attempt
 * failed and retries remain, log the failure, count down, re-open and sleep.
 *
 * The couchbase client's `open_bucket` is an oracle `open`: `open(k)` is the
 * outcome of the k-th call (counting from 0). Logging, sleeping and the calls
 * themselves are recorded in an appended trace of effects.
 */
module Db {
  import opened Wrappers

  newtype u8 = x: int | 0 <= x < 256

  /** The name of the only bucket the system reads (src/db.rs:5). */
  const BucketName: string := "events"
  const MaxRetries: u8 := 60
  const RetryIntervalMillis: nat := 1000

  /** The couchbase error kinds the loop tells apart. */
  datatype CouchbaseError<E> = AuthFailed | Other(err: E)

  type OpenOutcome<H, E> = Result<H, CouchbaseError<E>>

  /** One observable side effect of `connect_to_bucket`. */
  datatype Effect<E> =
    | OpenBucket
    | WarnBucketMissing(retriesRemaining: nat)
    | ErrorConnectFailed(err: E, retriesRemaining: nat)
    | Sleep(millis: nat)
    | InfoConnected
    | ErrorGaveUp(last: CouchbaseError<E>)

  /** The log line written for a failed attempt: a warning for `AuthFailed`, an error otherwise. */
  function FailureLog<E>(e: CouchbaseError<E>, remaining: nat): (eff: Effect<E>)
    ensures eff.WarnBucketMissing? || eff.ErrorConnectFailed?
    ensures eff.WarnBucketMissing? <==> e == AuthFailed
    ensures eff.WarnBucketMissing? ==> eff.retriesRemaining == remaining
    ensures eff.ErrorConnectFailed? ==> eff.retriesRemaining == remaining && e == Other(eff.err)
  {
    match e
    case AuthFailed => WarnBucketMissing(remaining)
    case Other(x) => ErrorConnectFailed(x, remaining)
  }

  // ---------------------------------------------------------------------------
  // Specification

  /** The smallest k' in [k, MaxRetries] whose attempt succeeded, or MaxRetries if none did. */
  function FirstOpenedFrom<H, E>(open: nat -> OpenOutcome<H, E>, k: nat): (n: nat)
    requires k <= MaxRetries as nat
    ensures k <= n <= MaxRetries as nat
    ensures forall j :: k <= j < n ==> open(j).Err?
    ensures n < MaxRetries as nat ==> open(n).Ok?
    decreases MaxRetries as nat - k
  {
    if k == MaxRetries as nat || open(k).Ok? then k else FirstOpenedFrom(open, k + 1)
  }

  /**
   * The number of loop iterations: the index of the first successful
   * attempt, capped at MaxRetries. The returned result is that of attempt
   * `Iterations(open)`.
   */
  function Iterations<H, E>(open: nat -> OpenOutcome<H, E>): (n: nat)
    ensures n <= MaxRetries as nat
    ensures forall j :: 0 <= j < n ==> open(j).Err?
    ensures n < MaxRetries as nat ==> open(n).Ok?
  {
    FirstOpenedFrom(open, 0)
  }

  /** What `connect_to_bucket` returns: the last attempt's handle, or `Err(())`. */
  function ConnectResult<H, E>(open: nat -> OpenOutcome<H, E>): Result<H, ()> {
    match open(Iterations(open))
    case Ok(h) => Ok(h)
    case Err(_) => Err(())
  }

  /** The effects of the first n loop iterations, given that attempts 0..n-1 failed. */
  function RetryTrace<H, E>(open: nat -> OpenOutcome<H, E>, n: nat): (t: seq<Effect<E>>)
    requires n <= MaxRetries as nat
    requires forall j :: 0 <= j < n ==> open(j).Err?
    ensures |t| == 3 * n
  {
    if n == 0 then []
    else RetryTrace(open, n - 1)
         + [FailureLog(open(n - 1).error, MaxRetries as nat - (n - 1)), OpenBucket, Sleep(RetryIntervalMillis)]
  }

  /** The full effect trace of `connect_to_bucket`. */
  function ConnectTrace<H, E>(open: nat -> OpenOutcome<H, E>): (t: seq<Effect<E>>)
    ensures |t| == 3 * Iterations(open) + 2
  {
    var n := Iterations(open);
    [OpenBucket] + RetryTrace(open, n) + [FinalLog(open(n))]
  }

  /** The line logged after the loop: info on success, an error naming the last failure otherwise. */
  function FinalLog<H, E>(last: OpenOutcome<H, E>): (eff: Effect<E>)
    ensures eff.InfoConnected? <==> last.Ok?
    ensures last.Err? ==> eff == ErrorGaveUp(last.error)
  {
    match last
    case Ok(_) => InfoConnected
    case Err(e) => ErrorGaveUp(e)
  }

  function CountOpens<E>(t: seq<Effect<E>>): nat {
    if t == [] then 0 else CountOpens(t[..|t| - 1]) + (if t[|t| - 1].OpenBucket? then 1 else 0)
  }

  function CountSleeps<E>(t: seq<Effect<E>>): nat {
    if t == [] then 0 else CountSleeps(t[..|t| - 1]) + (if t[|t| - 1].Sleep? then 1 else 0)
  }

  function SleptMillis<E>(t: seq<Effect<E>>): nat {
    if t == [] then 0 else SleptMillis(t[..|t| - 1]) + (if t[|t| - 1].Sleep? then t[|t| - 1].millis else 0)
  }

  /** Iterations(open) is the only index the loop can stop at. */
  lemma ExitIndex<H, E>(open: nat -> OpenOutcome<H, E>, k: nat)
    requires k <= MaxRetries as nat
    requires forall j :: 0 <= j < k ==> open(j).Err?
    requires k < MaxRetries as nat ==> open(k).Ok?
    ensures k == Iterations(open)
  {
  }

  // ---------------------------------------------------------------------------
  // The loop

  /** `connect_to_bucket`: the retry loop of src/db.rs:16-52. */
  method ConnectToBucket<H, E>(open: nat -> OpenOutcome<H, E>) returns (r: Result<H, ()>, trace: seq<Effect<E>>)
    ensures r == ConnectResult(open)
    ensures trace == ConnectTrace(open)
  {
    var retries: u8 := MaxRetries;
    var bucket := open(0);
    var calls: nat := 1;
    trace := [OpenBucket];

    while bucket.IsErr() && retries > 0
      invariant retries as nat + calls == MaxRetries as nat + 1
      invariant bucket == open(calls - 1)
      invariant forall j :: 0 <= j < calls - 1 ==> open(j).Err?
      invariant trace == [OpenBucket] + RetryTrace(open, calls - 1)
      decreases retries
    {
      var log: Effect<E>;
      match bucket {
        case Ok(_) =>
          assert false;
        case Err(e) =>
          log := FailureLog(e, retries as nat);
      }
      RetryTraceStep(open, calls - 1);
      retries := retries - 1;
      bucket := open(calls);
      calls := calls + 1;
      trace := trace + [log, OpenBucket, Sleep(RetryIntervalMillis)];
    }

    ExitIndex(open, calls - 1);
    match bucket {
      case Ok(h) =>
        trace := trace + [InfoConnected];
        r := Ok(h);
      case Err(e) =>
        trace := trace + [ErrorGaveUp(e)];
        r := Err(());
    }
  }

  /** One more iteration appends its three effects. */
  lemma RetryTraceStep<H, E>(open: nat -> OpenOutcome<H, E>, k: nat)
    requires k < MaxRetries as nat
    requires forall j :: 0 <= j <= k ==> open(j).Err?
    ensures RetryTrace(open, k + 1)
      == RetryTrace(open, k) + [FailureLog(open(k).error, MaxRetries as nat - k), OpenBucket, Sleep(RetryIntervalMillis)]
  {
  }

  // ---------------------------------------------------------------------------
  // Properties

  /** Iteration k < n wrote three effects: the failure log with 60 - k retries remaining, a re-open, a sleep. */
  lemma {:induction false} RetryTraceAt<H, E>(open: nat -> OpenOutcome<H, E>, n: nat, k: nat)
    requires n <= MaxRetries as nat
    requires forall j :: 0 <= j < n ==> open(j).Err?
    requires k < n
    ensures RetryTrace(open, n)[3 * k] == FailureLog(open(k).error, MaxRetries as nat - k)
    ensures RetryTrace(open, n)[3 * k + 1] == OpenBucket
    ensures RetryTrace(open, n)[3 * k + 2] == Sleep(RetryIntervalMillis)
  {
    var prev := RetryTrace(open, n - 1);
    var step := [FailureLog(open(n - 1).error, MaxRetries as nat - (n - 1)), OpenBucket, Sleep(RetryIntervalMillis)];
    assert RetryTrace(open, n) == prev + step;
    var i := 3 * k;
    if k < n - 1 {
      RetryTraceAt(open, n - 1, k);
      assert i + 2 < |prev|;
    } else {
      assert i == |prev|;
    }
  }

  /** The trace starts with the open before the loop and ends with the info line or the give-up error line. */
  lemma ConnectTraceEnds<H, E>(open: nat -> OpenOutcome<H, E>)
    ensures ConnectTrace(open)[0] == OpenBucket
    ensures ConnectTrace(open)[3 * Iterations(open) + 1] == FinalLog(open(Iterations(open)))
  {
  }

  /**
   * Iteration k of the loop sits at positions 3k+1 .. 3k+3 of the trace: the
   * failure log naming retries_remaining = 60 - k, the re-open, the sleep.
   */
  lemma ConnectTraceAt<H, E>(open: nat -> OpenOutcome<H, E>, k: nat)
    requires k < Iterations(open)
    ensures ConnectTrace(open)[3 * k + 1] == FailureLog(open(k).error, MaxRetries as nat - k)
    ensures ConnectTrace(open)[3 * k + 2] == OpenBucket
    ensures ConnectTrace(open)[3 * k + 3] == Sleep(RetryIntervalMillis)
  {
    var n := Iterations(open);
    var rt := RetryTrace(open, n);
    var i := 3 * k;
    assert i + 2 < |rt|;
    Between(OpenBucket, rt, FinalLog(open(n)), i);
    Between(OpenBucket, rt, FinalLog(open(n)), i + 1);
    Between(OpenBucket, rt, FinalLog(open(n)), i + 2);
    RetryTraceAt(open, n, k);
  }

  lemma Between<T>(first: T, middle: seq<T>, last: T, i: nat)
    requires i < |middle|
    ensures ([first] + middle + [last])[i + 1] == middle[i]
  {
  }

  /** The log line of the k-th iteration reports retries_remaining = 60 - k, at the level its error kind calls for. */
  lemma RetriesRemainingLogged<H, E>(open: nat -> OpenOutcome<H, E>, k: nat)
    requires k < Iterations(open)
    ensures var log := ConnectTrace(open)[3 * k + 1];
      (log.WarnBucketMissing? || log.ErrorConnectFailed?)
      && log.retriesRemaining == MaxRetries as nat - k
      && log.retriesRemaining > 0
      && (log.WarnBucketMissing? <==> open(k) == Err(AuthFailed))
  {
    ConnectTraceAt(open, k);
  }

  /** A success on a retry is still followed by one sleep before the info line. */
  lemma SleepAfterSuccessfulReopen<H, E>(open: nat -> OpenOutcome<H, E>)
    requires ConnectResult(open).Ok?
    requires Iterations(open) > 0
    ensures var t := ConnectTrace(open);
      t[|t| - 3] == OpenBucket && t[|t| - 2] == Sleep(RetryIntervalMillis) && t[|t| - 1] == InfoConnected
  {
    var n := Iterations(open);
    ConnectTraceAt(open, n - 1);
    ConnectTraceEnds(open);
    assert 3 * (n - 1) + 3 == 3 * n;
  }

  lemma {:induction false} CountsAppend<E>(a: seq<Effect<E>>, b: seq<Effect<E>>)
    ensures CountOpens(a + b) == CountOpens(a) + CountOpens(b)
    ensures CountSleeps(a + b) == CountSleeps(a) + CountSleeps(b)
    ensures SleptMillis(a + b) == SleptMillis(a) + SleptMillis(b)
    decreases |b|
  {
    if b == [] {
      assert a + b == a;
    } else {
      var b' := b[..|b| - 1];
      assert (a + b)[..|a + b| - 1] == a + b';
      CountsAppend(a, b');
    }
  }

  lemma {:induction false} RetryTraceCounts<H, E>(open: nat -> OpenOutcome<H, E>, n: nat)
    requires n <= MaxRetries as nat
    requires forall j :: 0 <= j < n ==> open(j).Err?
    ensures CountOpens(RetryTrace(open, n)) == n
    ensures CountSleeps(RetryTrace(open, n)) == n
    ensures SleptMillis(RetryTrace(open, n)) == n * RetryIntervalMillis
  {
    if n > 0 {
      RetryTraceCounts(open, n - 1);
      var prev := RetryTrace(open, n - 1);
      var log := FailureLog(open(n - 1).error, MaxRetries as nat - (n - 1));
      var step := [log, OpenBucket, Sleep(RetryIntervalMillis)];
      assert !log.OpenBucket? && !log.Sleep?;
      assert [log][..0] == [];
      assert CountOpens([log]) == 0;
      assert CountSleeps([log]) == 0;
      assert SleptMillis([log]) == 0;
      assert step[..2] == [log, OpenBucket] && step[..2][..1] == [log];
      assert CountOpens(step[..2]) == 1 && CountSleeps(step[..2]) == 0 && SleptMillis(step[..2]) == 0;
      CountsAppend(prev, step);
      assert RetryTrace(open, n) == prev + step;
    }
  }

  /**
   * `open_bucket` is called Iterations + 1 <= 61 times; the thread sleeps once
   * per iteration, i.e. once fewer than it opens, for at most 60 seconds; and
   * the whole call makes at most 182 effects, so the loop is bounded.
   */
  lemma OpenAndSleepCounts<H, E>(open: nat -> OpenOutcome<H, E>)
    ensures var t := ConnectTrace(open);
      CountOpens(t) == Iterations(open) + 1
      && CountOpens(t) <= MaxRetries as nat + 1
      && CountSleeps(t) == Iterations(open)
      && CountSleeps(t) == CountOpens(t) - 1
      && SleptMillis(t) == Iterations(open) * RetryIntervalMillis
      && SleptMillis(t) <= MaxRetries as nat * RetryIntervalMillis
      && |t| <= 3 * MaxRetries as nat + 2
  {
    var n := Iterations(open);
    var rt := RetryTrace(open, n);
    var last := FinalLog(open(n));
    RetryTraceCounts(open, n);
    CountsAppend([OpenBucket], rt);
    CountsAppend([OpenBucket] + rt, [last]);
    var none: seq<Effect<E>> := [];
    assert [OpenBucket][..0] == none;
    assert [last][..0] == none;
    assert !last.OpenBucket? && !last.Sleep?;
  }

  /** The loop stops at the first successful attempt and returns that attempt's handle. */
  lemma ConnectReturnsFirstSuccess<H, E>(open: nat -> OpenOutcome<H, E>, k: nat)
    requires k <= MaxRetries as nat
    requires open(k).Ok?
    requires forall j :: 0 <= j < k ==> open(j).Err?
    ensures Iterations(open) == k
    ensures ConnectResult(open) == Ok(open(k).value)
    ensures CountOpens(ConnectTrace(open)) == k + 1
  {
    OpenAndSleepCounts(open);
  }

  /** `Err(())` is returned exactly when all 61 attempts fail; then the loop ran all 60 iterations. */
  lemma ConnectFailsIffAllAttemptsFail<H, E>(open: nat -> OpenOutcome<H, E>)
    ensures ConnectResult(open) == Err(()) <==> forall k :: 0 <= k <= MaxRetries as nat ==> open(k).Err?
    ensures ConnectResult(open).Err? ==>
      Iterations(open) == MaxRetries as nat && CountOpens(ConnectTrace(open)) == MaxRetries as nat + 1
  {
    OpenAndSleepCounts(open);
  }

  /**
   * The retry decision ignores the error kind: two oracles that succeed at the
   * same attempts with the same handles give the same result, the same number
   * of iterations and the same numbers of opens and sleeps.
   */
  lemma ConnectIgnoresErrorKind<H, E>(o1: nat -> OpenOutcome<H, E>, o2: nat -> OpenOutcome<H, E>)
    requires forall k :: o1(k).Ok? <==> o2(k).Ok?
    requires forall k :: o1(k).Ok? ==> o1(k) == o2(k)
    ensures Iterations(o1) == Iterations(o2)
    ensures ConnectResult(o1) == ConnectResult(o2)
    ensures CountOpens(ConnectTrace(o1)) == CountOpens(ConnectTrace(o2))
    ensures CountSleeps(ConnectTrace(o1)) == CountSleeps(ConnectTrace(o2))
  {
    OpenAndSleepCounts(o1);
    OpenAndSleepCounts(o2);
  }
}
