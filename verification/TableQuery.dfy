/** When the start-up table query fires, and the batch of requests it schedules. */
module TableQuery {
  import opened Basics
  import LocoNet
  import opened Time
  import Scheduler

  const MIN_TURNOUT_ADDRESS := 1
  const MAX_TURNOUT_ADDRESS := 48
  const BATCH_SIZE: nat := 48
  const QUERY_STAGGER_MS: nat := 20
  const STABLE_CONNECTION_MS: nat := 2000

  /** The delay of the last request of a batch. */
  const BATCH_SPAN_MS: nat := 940

  datatype Query = Query(connectedSince: Option<nat>, queriedThisConnection: bool)

  /** One update: the connection reading and the clock readings it takes. A reading the code does
      not take on its path is not used. */
  datatype Reading = Reading(connected: bool, sinceAt: nat, readyAt: nat)

  function Since(q: Query, r: Reading): nat
  {
    if q.connectedSince.Some? then q.connectedSince.value else r.sinceAt
  }

  predicate Fires(q: Query, r: Reading, width: ClockWidth)
  {
    r.connected && !q.queriedThisConnection && Elapsed(r.readyAt, Since(q, r), width) >= STABLE_CONNECTION_MS
  }

  function QueryNext(q: Query, r: Reading, width: ClockWidth): Query
  {
    if !r.connected then Query(None, false)
    else Query(Some(Since(q, r)), q.queriedThisConnection || Fires(q, r, width))
  }

  function Batch(): seq<int> { seq(BATCH_SIZE, i => MIN_TURNOUT_ADDRESS + i) }

  /** The delayed sends of one batch; the clock is read again for each of them. */
  function BatchSends(sendAt: seq<nat>): seq<Scheduler.PendingSend>
  {
    seq(|sendAt|, i requires 0 <= i < |sendAt| =>
      Scheduler.PendingSend(LocoNet.StateRequest(MIN_TURNOUT_ADDRESS + i), sendAt[i] + QUERY_STAGGER_MS * i))
  }

  /** A batch in numerals: the turnouts 1 to 48, the i-th request due 20 i ms after its own reading. */
  lemma BatchInFull(sendAt: seq<nat>, i: nat)
    requires i < |sendAt| == 48
    ensures |Batch()| == |BatchSends(sendAt)| == 48
    ensures Batch()[i] == 1 + i
    ensures BatchSends(sendAt)[i] == Scheduler.PendingSend(LocoNet.StateRequest(1 + i), sendAt[i] + 20 * i)
  {
  }

  /** Consecutive requests of a batch are due at least 20 ms apart. */
  lemma BatchIsStaggered(sendAt: seq<nat>, i: nat)
    requires i + 1 < |sendAt| && Ascending(sendAt)
    ensures BatchSends(sendAt)[i + 1].dueAt - BatchSends(sendAt)[i].dueAt >= 20
  {
    assert sendAt[i] <= sendAt[i + 1];
  }

  // ---------------------------------------------------- runs of updates

  const QUERY_START := Query(None, false)

  function StateAfter(trace: seq<Reading>, width: ClockWidth): Query
  {
    if trace == [] then QUERY_START
    else QueryNext(StateAfter(trace[..|trace| - 1], width), trace[|trace| - 1], width)
  }

  predicate FiresAt(trace: seq<Reading>, i: nat, width: ClockWidth)
    requires i < |trace|
  {
    Fires(StateAfter(trace[..i], width), trace[i], width)
  }

  /** First update of the unbroken run of connected readings that contains update i. */
  function RunStart(trace: seq<Reading>, i: nat): (j: nat)
    requires i < |trace| && trace[i].connected
    ensures j <= i && forall k | j <= k <= i :: trace[k].connected
    ensures j > 0 ==> !trace[j - 1].connected
  {
    if i > 0 && trace[i - 1].connected then RunStart(trace, i - 1) else i
  }

  /** Update k, in the run that began at update j, finds the connection stable. */
  predicate StableAt(trace: seq<Reading>, j: nat, k: nat, width: ClockWidth)
    requires j <= k < |trace|
  {
    Elapsed(trace[k].readyAt, trace[j].sinceAt, width) >= 2000
  }

  lemma {:induction false} StateIsRunHistory(trace: seq<Reading>, i: nat, width: ClockWidth)
    requires i < |trace|
    ensures StateAfter(trace[..i + 1], width)
            == if !trace[i].connected then QUERY_START
               else
                 var j := RunStart(trace, i);
                 Query(Some(trace[j].sinceAt), exists k | j <= k <= i :: StableAt(trace, j, k, width))
  {
    assert trace[..i + 1][..i] == trace[..i];
    if i > 0 { StateIsRunHistory(trace, i - 1, width); }
    if trace[i].connected {
      var j := RunStart(trace, i);
      assert j < i ==> j == RunStart(trace, i - 1);
      assert (exists k | j <= k <= i :: StableAt(trace, j, k, width))
        <==> (exists k | j <= k < i :: StableAt(trace, j, k, width)) || StableAt(trace, j, i, width);
    }
  }

  lemma StateBefore(trace: seq<Reading>, i: nat, width: ClockWidth)
    requires i < |trace| && trace[i].connected
    ensures var q, j := StateAfter(trace[..i], width), RunStart(trace, i);
            && Since(q, trace[i]) == trace[j].sinceAt
            && (q.queriedThisConnection <==> exists k | j <= k < i :: StableAt(trace, j, k, width))
  {
    if i > 0 {
      StateIsRunHistory(trace, i - 1, width);
    }
  }

  /** The query fires at update i exactly when i is the first update of its unbroken connected run
      that comes at least 2000 ms (on the clock in use) after the run's first connected reading. */
  lemma FiresExactlyWhenFirstStable(trace: seq<Reading>, i: nat, width: ClockWidth)
    requires i < |trace|
    ensures FiresAt(trace, i, width)
            <==> trace[i].connected
                 && StableAt(trace, RunStart(trace, i), i, width)
                 && forall k | RunStart(trace, i) <= k < i :: !StableAt(trace, RunStart(trace, i), k, width)
  {
    if trace[i].connected {
      StateBefore(trace, i, width);
    }
  }

  /** All clock readings of a run of updates, in the order taken. */
  predicate ClockAscends(trace: seq<Reading>)
  {
    && (forall i | 0 <= i < |trace| :: trace[i].sinceAt <= trace[i].readyAt)
    && (forall i, j | 0 <= i < j < |trace| :: trace[i].readyAt <= trace[j].sinceAt)
  }

  /** Two firings never belong to one connected run, and are at least 2000 true milliseconds apart
      even on the wrapping clock. */
  lemma FiringsAreApart(trace: seq<Reading>, i: nat, k: nat, width: ClockWidth)
    requires ClockAscends(trace) && i < k < |trace|
    requires FiresAt(trace, i, width) && FiresAt(trace, k, width)
    ensures exists gap | i < gap < k :: !trace[gap].connected
    ensures trace[k].readyAt - trace[i].readyAt >= 2000
  {
    FiresExactlyWhenFirstStable(trace, i, width);
    FiresExactlyWhenFirstStable(trace, k, width);
    var j := RunStart(trace, k);
    if j <= i { SameRun(trace, i, k); }
    assert j > i;
    assert i < j - 1 < k && !trace[j - 1].connected;
    ElapsedAtMostTrue(trace[k].readyAt, trace[j].sinceAt, width);
  }

  lemma ElapsedAtMostTrue(now: nat, since: nat, width: ClockWidth)
    requires since <= now
    ensures Elapsed(now, since, width) <= now - since
  {
  }

  lemma SameRun(trace: seq<Reading>, i: nat, k: nat)
    requires i <= k < |trace| && trace[k].connected && RunStart(trace, k) <= i
    ensures trace[i].connected && RunStart(trace, i) == RunStart(trace, k)
  {
  }

  /** Consecutive updates less than 2^32 - 2000 ms apart: each update's last reading against the
      previous update's. */
  predicate Brisk(trace: seq<Reading>)
  {
    && (forall i | 0 < i < |trace| :: SoonAfter(trace, i))
    && (forall i | 0 <= i < |trace| :: trace[i].readyAt - trace[i].sinceAt < CLOCK_MODULUS - STABLE_CONNECTION_MS)
  }

  predicate SoonAfter(trace: seq<Reading>, i: nat)
    requires 0 < i < |trace|
  {
    trace[i].readyAt - trace[i - 1].readyAt < CLOCK_MODULUS - STABLE_CONNECTION_MS
  }

  /** On a brisk run the 32-bit counter changes nothing: state by state the debounce is what it
      would be on a clock that never wraps. */
  lemma {:induction false} WrapIsInvisible(trace: seq<Reading>, i: nat)
    requires ClockAscends(trace) && Brisk(trace) && i <= |trace|
    ensures StateAfter(trace[..i], Bits32) == StateAfter(trace[..i], Unbounded)
    ensures var q := StateAfter(trace[..i], Unbounded);
            i > 0 && q.connectedSince.Some? ==>
              && q.connectedSince.value <= trace[i - 1].readyAt
              && (!q.queriedThisConnection ==> trace[i - 1].readyAt - q.connectedSince.value < STABLE_CONNECTION_MS)
  {
    if i > 0 {
      WrapIsInvisible(trace, i - 1);
      assert trace[..i][..i - 1] == trace[..i - 1];
      var q, r := StateAfter(trace[..i - 1], Unbounded), trace[i - 1];
      assert r.sinceAt <= r.readyAt;
      if r.connected && !q.queriedThisConnection {
        assert i > 1 ==> SoonAfter(trace, i - 1);
        assert Since(q, r) <= r.readyAt < Since(q, r) + CLOCK_MODULUS;
        ElapsedBelowModulus(r.readyAt, Since(q, r));
      }
    }
  }
}
