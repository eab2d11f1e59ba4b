/** The interval machines: the periodic republish, the connection-status publisher and the activity
    LED. Each subtracts 32-bit clock readings; each is shown to behave as on an endless clock. */
module Timers {
  import opened Basics
  import opened Time
  import opened Mqtt

  const STATE_REPUBLISH_INTERVAL_MS: nat := 30000
  const STATUS_REPUBLISH_INTERVAL_MS: nat := 30000

  // ---------------------------------------------------- state republish

  /** One check: the reading compared, and the one stored if the interval is over. */
  datatype Check = Check(readAt: nat, stampAt: nat)

  predicate RepublishDue(last: nat, c: Check, width: ClockWidth)
  {
    Elapsed(c.readAt, last, width) >= STATE_REPUBLISH_INTERVAL_MS
  }

  function RepublishNext(last: nat, c: Check, width: ClockWidth): nat
  {
    if RepublishDue(last, c, width) then c.stampAt else last
  }

  function RepublishAfter(checks: seq<Check>, width: ClockWidth): nat
  {
    if checks == [] then 0
    else RepublishNext(RepublishAfter(checks[..|checks| - 1], width), checks[|checks| - 1], width)
  }

  predicate ChecksAscend(checks: seq<Check>)
  {
    && (forall i | 0 <= i < |checks| :: checks[i].readAt <= checks[i].stampAt)
    && (forall i, j | 0 <= i < j < |checks| :: checks[i].stampAt <= checks[j].readAt)
  }

  /** Each check comes less than 2^32 - 30000 ms after the reading of the one before. */
  predicate ChecksBrisk(checks: seq<Check>)
  {
    && (checks != [] ==> checks[0].readAt < CLOCK_MODULUS)
    && (forall i | 0 < i < |checks| :: CheckedSoonAfter(checks, i))
  }

  predicate CheckedSoonAfter(checks: seq<Check>, i: nat)
    requires 0 < i < |checks|
  {
    checks[i].readAt - checks[i - 1].readAt < CLOCK_MODULUS - STATE_REPUBLISH_INTERVAL_MS
  }

  lemma {:induction false} RepublishWrapIsInvisible(checks: seq<Check>, i: nat)
    requires ChecksAscend(checks) && ChecksBrisk(checks) && i <= |checks|
    ensures RepublishAfter(checks[..i], Bits32) == RepublishAfter(checks[..i], Unbounded)
    ensures i < |checks| ==>
              RepublishDue(RepublishAfter(checks[..i], Bits32), checks[i], Bits32)
              == RepublishDue(RepublishAfter(checks[..i], Bits32), checks[i], Unbounded)
    ensures var last := RepublishAfter(checks[..i], Unbounded);
            if i == 0 then last == 0
            else last <= checks[i - 1].stampAt && checks[i - 1].readAt - last < STATE_REPUBLISH_INTERVAL_MS
  {
    if i > 0 {
      RepublishWrapIsInvisible(checks, i - 1);
      assert checks[..i][..i - 1] == checks[..i - 1];
    }
    if i < |checks| {
      var last := RepublishAfter(checks[..i], Unbounded);
      assert i > 0 ==> CheckedSoonAfter(checks, i);
      assert last <= checks[i].readAt < last + CLOCK_MODULUS;
      ElapsedBelowModulus(checks[i].readAt, last);
    }
  }

  /** On such runs the republish never starves: after every check, less than 30 s have passed since
      the last republish (or start-up), and two republishes are at least 30 s apart. */
  lemma RepublishNeverStarves(checks: seq<Check>, i: nat)
    requires ChecksAscend(checks) && ChecksBrisk(checks) && i < |checks|
    ensures checks[i].readAt - RepublishAfter(checks[..i + 1], Bits32) < 30000
    ensures RepublishAfter(checks[..i + 1], Bits32) != RepublishAfter(checks[..i], Bits32)
            ==> checks[i].readAt - RepublishAfter(checks[..i], Bits32) >= 30000
  {
    RepublishWrapIsInvisible(checks, i + 1);
    RepublishWrapIsInvisible(checks, i);
    assert checks[..i + 1][..i] == checks[..i];
  }

  // -------------------------------------------------- connection status

  datatype Status = Status(lastKnownConnected: Option<bool>, lastPublishedAt: nat)

  /** One update: the reading compared; what publish() reads if it runs because of a change; the
      reading of the interval test; what publish() reads if the interval is over. */
  datatype StatusReading = StatusReading(connected: bool, changePayload: bool, changeAt: nat,
                                         readAt: nat, duePayload: bool, dueAt: nat)

  const UNKNOWN := Status(None, 0)

  predicate StatusChanged(s: Status, r: StatusReading) { s.lastKnownConnected != Some(r.connected) }

  function StatusAfterChange(s: Status, r: StatusReading): Status
  {
    if StatusChanged(s, r) then Status(Some(r.connected), r.changeAt) else s
  }

  predicate StatusDue(s: Status, r: StatusReading, width: ClockWidth)
  {
    Elapsed(r.readAt, StatusAfterChange(s, r).lastPublishedAt, width) >= STATUS_REPUBLISH_INTERVAL_MS
  }

  function StatusNext(s: Status, r: StatusReading, width: ClockWidth): Status
  {
    var changed := StatusAfterChange(s, r);
    if StatusDue(s, r, width) then changed.(lastPublishedAt := r.dueAt) else changed
  }

  function StatusMessage(connected: bool): MqttMessage
  {
    MqttMessage(STATUS_TOPIC, if connected then "connected" else "disconnected", true)
  }

  /** The messages one update publishes: none, one or two. */
  function StatusMessages(s: Status, r: StatusReading, width: ClockWidth): seq<MqttMessage>
  {
    (if StatusChanged(s, r) then [StatusMessage(r.changePayload)] else [])
    + (if StatusDue(s, r, width) then [StatusMessage(r.duePayload)] else [])
  }

  function StatusRun(trace: seq<StatusReading>, width: ClockWidth): Status
  {
    if trace == [] then UNKNOWN else StatusNext(StatusRun(trace[..|trace| - 1], width), trace[|trace| - 1], width)
  }

  /** What a subscriber holds after a run of updates: the connection state last published, if any. */
  function LastTold(trace: seq<StatusReading>, width: ClockWidth): Option<bool>
  {
    if trace == [] then None
    else
      var before, r := trace[..|trace| - 1], trace[|trace| - 1];
      var s := StatusRun(before, width);
      if StatusDue(s, r, width) then Some(r.duePayload)
      else if StatusChanged(s, r) then Some(r.changePayload)
      else LastTold(before, width)
  }

  /** The messages of an update, replayed, are what it adds to what the subscriber holds. */
  lemma LastToldIsReplayed(trace: seq<StatusReading>, width: ClockWidth, log: seq<MqttMessage>)
    requires trace != []
    ensures var before, r := trace[..|trace| - 1], trace[|trace| - 1];
            var messages := StatusMessages(StatusRun(before, width), r, width);
            && (messages == [] ==> LastTold(trace, width) == LastTold(before, width))
            && (messages != [] ==>
                  && LastTold(trace, width).Some?
                  && messages[|messages| - 1] == StatusMessage(LastTold(trace, width).value)
                  && Replay(log + messages)[STATUS_TOPIC]
                     == if LastTold(trace, width).value then "connected" else "disconnected")
  {
    var r := trace[|trace| - 1];
    var messages := StatusMessages(StatusRun(trace[..|trace| - 1], width), r, width);
    if messages != [] {
      var n := |messages| - 1;
      assert log + messages == (log + messages[..n]) + [messages[n]];
      ReplaySnoc(log + messages[..n], messages[n]);
    }
  }

  lemma {:induction false} LastKnownIsLastReading(trace: seq<StatusReading>, width: ClockWidth)
    ensures StatusRun(trace, width).lastKnownConnected
            == if trace == [] then None else Some(trace[|trace| - 1].connected)
  {
  }

  lemma LastToldStep(trace: seq<StatusReading>, k: nat, width: ClockWidth)
    requires k < |trace|
    ensures var s, r := StatusRun(trace[..k], width), trace[k];
            LastTold(trace[..k + 1], width)
            == if StatusDue(s, r, width) then Some(r.duePayload)
               else if StatusChanged(s, r) then Some(r.changePayload)
               else LastTold(trace[..k], width)
  {
    assert trace[..k + 1][..k] == trace[..k];
  }

  /** The updates that publish: the first, those whose comparison reads a change, and those that find
      the interval over. */
  predicate Publishes(trace: seq<StatusReading>, i: nat, width: ClockWidth)
    requires i < |trace|
  {
    || i == 0
    || trace[i].connected != trace[i - 1].connected
    || StatusDue(StatusRun(trace[..i], width), trace[i], width)
  }

  /** The last update up to k that publishes. */
  function LastPub(trace: seq<StatusReading>, k: nat, width: ClockWidth): (i: nat)
    requires k < |trace|
    ensures i <= k && Publishes(trace, i, width) && forall j | i < j <= k :: !Publishes(trace, j, width)
  {
    if Publishes(trace, k, width) then k else LastPub(trace, k - 1, width)
  }

  /** The connection reading inside the last message of update i. */
  function PayloadAt(trace: seq<StatusReading>, i: nat, width: ClockWidth): bool
    requires i < |trace|
  {
    if StatusDue(StatusRun(trace[..i], width), trace[i], width) then trace[i].duePayload else trace[i].changePayload
  }

  lemma PublishesIffChangedOrDue(trace: seq<StatusReading>, i: nat, width: ClockWidth)
    requires i < |trace|
    ensures var s := StatusRun(trace[..i], width);
            Publishes(trace, i, width) <==> StatusChanged(s, trace[i]) || StatusDue(s, trace[i], width)
  {
    LastKnownIsLastReading(trace[..i], width);
  }

  /** After update k the subscriber holds the payload of the last publication, and every comparison
      since has read what that update's comparison read. */
  lemma {:induction false} LastPubIsTold(trace: seq<StatusReading>, k: nat, width: ClockWidth)
    requires k < |trace|
    ensures var i := LastPub(trace, k, width);
            && LastTold(trace[..k + 1], width) == Some(PayloadAt(trace, i, width))
            && trace[i].connected == trace[k].connected
  {
    LastToldStep(trace, k, width);
    PublishesIffChangedOrDue(trace, k, width);
    if !Publishes(trace, k, width) {
      LastPubIsTold(trace, k - 1, width);
    }
  }

  /** Exactly when the subscriber holds the connection state last compared: the comparison and the
      payload of the last publishing update read the connection alike. Flips in earlier publications,
      or where nothing was published, do not matter. */
  lemma ToldIffLastPublicationReadAlike(trace: seq<StatusReading>, k: nat, width: ClockWidth)
    requires k < |trace|
    ensures var i := LastPub(trace, k, width);
            LastTold(trace[..k + 1], width) == Some(trace[k].connected)
            <==> PayloadAt(trace, i, width) == trace[i].connected
  {
    LastPubIsTold(trace, k, width);
  }

  /** The simplest failure: the connection drops between the first comparison and its payload. */
  lemma FirstPublicationMayFlip(width: ClockWidth)
    ensures var trace := [StatusReading(true, false, 0, 0, false, 0)];
            trace[0].connected && LastTold(trace, width) == Some(false)
  {
    var trace := [StatusReading(true, false, 0, 0, false, 0)];
    LastPubIsTold(trace, 0, width);
    assert trace[..1] == trace;
  }

  /** So the subscriber holds the reading just taken, if every publication so far read the connection
      the same way as the comparison that led to it. */
  lemma SteadyReadingsAreTold(trace: seq<StatusReading>, width: ClockWidth)
    requires trace != []
    requires forall i | 0 <= i < |trace| :: trace[i].connected == trace[i].changePayload == trace[i].duePayload
    ensures LastTold(trace, width) == Some(trace[|trace| - 1].connected)
  {
    ToldIffLastPublicationReadAlike(trace, |trace| - 1, width);
    assert trace[..|trace|] == trace;
  }

  /** And a reading that flips between the comparison and the publication is told wrongly for as long
      as the comparison keeps reading the same and the interval is not over. */
  lemma FlippedReadingIsToldUntilDue(trace: seq<StatusReading>, i: nat, k: nat, width: ClockWidth)
    requires i <= k < |trace|
    requires StatusChanged(StatusRun(trace[..i], width), trace[i]) && trace[i].changePayload != trace[i].connected
    requires forall j | i <= j <= k :: trace[j].connected == trace[i].connected
    requires forall j | i <= j <= k :: !StatusDue(StatusRun(trace[..j], width), trace[j], width)
    ensures LastTold(trace[..k + 1], width) == Some(!trace[k].connected)
  {
    PublishesIffChangedOrDue(trace, i, width);
    LastPubIsTold(trace, k, width);
    var last := LastPub(trace, k, width);
    if last > i { assert false; }
  }

  predicate StatusAscends(trace: seq<StatusReading>)
  {
    && (forall i | 0 <= i < |trace| :: trace[i].changeAt <= trace[i].readAt <= trace[i].dueAt)
    && (forall i, j | 0 <= i < j < |trace| :: trace[i].dueAt <= trace[j].changeAt)
  }

  predicate StatusBrisk(trace: seq<StatusReading>)
  {
    && (trace != [] ==> trace[0].readAt < CLOCK_MODULUS)
    && (forall i | 0 < i < |trace| :: UpdatedSoonAfter(trace, i))
  }

  predicate UpdatedSoonAfter(trace: seq<StatusReading>, i: nat)
    requires 0 < i < |trace|
  {
    trace[i].readAt - trace[i - 1].readAt < CLOCK_MODULUS - STATUS_REPUBLISH_INTERVAL_MS
  }

  /** State by state and message by message, the status publisher ignores the wrap. */
  lemma {:induction false} StatusWrapIsInvisible(trace: seq<StatusReading>, i: nat)
    requires StatusAscends(trace) && StatusBrisk(trace) && i <= |trace|
    ensures StatusRun(trace[..i], Bits32) == StatusRun(trace[..i], Unbounded)
    ensures i < |trace| ==>
              StatusMessages(StatusRun(trace[..i], Bits32), trace[i], Bits32)
              == StatusMessages(StatusRun(trace[..i], Bits32), trace[i], Unbounded)
    ensures var last := StatusRun(trace[..i], Unbounded).lastPublishedAt;
            if i == 0 then last == 0
            else last <= trace[i - 1].dueAt && trace[i - 1].readAt - last < STATUS_REPUBLISH_INTERVAL_MS
  {
    if i > 0 {
      StatusWrapIsInvisible(trace, i - 1);
      assert trace[..i][..i - 1] == trace[..i - 1];
    }
    if i < |trace| {
      var last := StatusAfterChange(StatusRun(trace[..i], Unbounded), trace[i]).lastPublishedAt;
      assert i > 0 ==> UpdatedSoonAfter(trace, i);
      assert last <= trace[i].readAt < last + CLOCK_MODULUS;
      ElapsedBelowModulus(trace[i].readAt, last);
    }
  }

  /** On such runs less than 30 s separate every update from the last publication, and a publication
      without a change comes at least 30 s after the one before. */
  lemma StatusNeverStarves(trace: seq<StatusReading>, i: nat)
    requires StatusAscends(trace) && StatusBrisk(trace) && i < |trace|
    ensures trace[i].readAt - StatusRun(trace[..i + 1], Bits32).lastPublishedAt < 30000
    ensures var s := StatusRun(trace[..i], Bits32);
            !StatusChanged(s, trace[i]) && StatusMessages(s, trace[i], Bits32) != []
            ==> trace[i].readAt - s.lastPublishedAt >= 30000
  {
    StatusWrapIsInvisible(trace, i + 1);
    StatusWrapIsInvisible(trace, i);
  }

  /** The status messages, in full. */
  lemma StatusInFull()
    ensures StatusMessage(true) == MqttMessage("loco2mqtt/jmri/status", "connected", true)
    ensures StatusMessage(false) == MqttMessage("loco2mqtt/jmri/status", "disconnected", true)
  {
  }

  // -------------------------------------------------------- activity LED

  datatype LedOp = Flash(at: nat) | Poll(at: nat)
  datatype Led = Led(lit: bool, litSince: nat)

  function LedNext(led: Led, op: LedOp, duration: nat, width: ClockWidth): Led
  {
    match op
    case Flash(at) => Led(true, at)
    case Poll(at) => if led.lit && Elapsed(at, led.litSince, width) >= duration then led.(lit := false) else led
  }

  function LedAfter(ops: seq<LedOp>, duration: nat, width: ClockWidth): Led
  {
    if ops == [] then Led(false, 0)
    else LedNext(LedAfter(ops[..|ops| - 1], duration, width), ops[|ops| - 1], duration, width)
  }

  /** The class of the source; the pin follows `lit`. */
  class ActivityLed {
    var pinHigh: bool
    var lit: bool
    var litSinceMs: nat
    const flashDurationMs: nat

    function State(): Led
      reads this
    {
      Led(lit, litSinceMs)
    }

    constructor (flashDurationMs: nat)
      ensures State() == Led(false, 0) && !pinHigh && this.flashDurationMs == flashDurationMs
    {
      pinHigh, lit, litSinceMs, this.flashDurationMs := false, false, 0, flashDurationMs;
    }

    method FlashOn(now: nat)
      requires pinHigh == lit
      modifies this
      ensures State() == LedNext(old(State()), Flash(now), flashDurationMs, Bits32) && pinHigh == lit
    {
      pinHigh := true;
      litSinceMs := now;
      lit := true;
    }

    method Update(now: nat)
      requires pinHigh == lit
      modifies this
      ensures State() == LedNext(old(State()), Poll(now), flashDurationMs, Bits32) && pinHigh == lit
    {
      if lit && DueToTurnOff(now) {
        pinHigh := false;
        lit := false;
      }
    }

    predicate DueToTurnOff(now: nat)
      reads this
    {
      Elapsed(now, litSinceMs, Bits32) >= flashDurationMs
    }
  }

  /** Operation f is the latest flash among the first `end`, and no poll since has found it over. */
  ghost predicate StillLit(ops: seq<LedOp>, end: nat, f: nat, duration: nat, width: ClockWidth)
    requires f < end <= |ops|
  {
    ops[f].Flash? && forall k | f < k < end :: ops[k].Poll? && Elapsed(ops[k].at, ops[f].at, width) < duration
  }

  /** The LED is lit exactly while the window of the latest flash is running: a flash while lit
      restarts the window, and the first poll at or past its end turns the LED off for good. */
  lemma StillLitStep(ops: seq<LedOp>, end: nat, f: nat, duration: nat, width: ClockWidth)
    requires f < end < |ops|
    ensures StillLit(ops, end + 1, f, duration, width)
            <==> StillLit(ops, end, f, duration, width)
                 && ops[end].Poll? && Elapsed(ops[end].at, ops[f].at, width) < duration
  {
  }

  lemma {:induction false} LedLitExactlyInWindow(ops: seq<LedOp>, end: nat, duration: nat, width: ClockWidth)
    requires end <= |ops|
    ensures LedAfter(ops[..end], duration, width).lit
            <==> exists f | 0 <= f < end :: StillLit(ops, end, f, duration, width)
    ensures forall f | 0 <= f < end && StillLit(ops, end, f, duration, width) ::
              LedAfter(ops[..end], duration, width).litSince == ops[f].at
  {
    if end > 0 {
      LedLitExactlyInWindow(ops, end - 1, duration, width);
      assert ops[..end][..end - 1] == ops[..end - 1];
      forall f | 0 <= f < end - 1
        ensures StillLit(ops, end, f, duration, width)
                <==> StillLit(ops, end - 1, f, duration, width)
                     && ops[end - 1].Poll? && Elapsed(ops[end - 1].at, ops[f].at, width) < duration
      {
        StillLitStep(ops, end - 1, f, duration, width);
      }
      if ops[end - 1].Flash? {
        assert StillLit(ops, end, end - 1, duration, width);
      }
    }
  }

  predicate OperatedSoonAfter(ops: seq<LedOp>, i: nat, duration: nat)
    requires 0 < i < |ops|
  {
    ops[i].at - ops[i - 1].at < CLOCK_MODULUS - duration
  }

  /** With consecutive operations less than 2^32 less one window apart, the LED ignores the wrap. */
  lemma {:induction false} LedWrapIsInvisible(ops: seq<LedOp>, end: nat, duration: nat)
    requires 0 < duration < CLOCK_MODULUS && end <= |ops|
    requires forall i, j | 0 <= i < j < |ops| :: ops[i].at <= ops[j].at
    requires forall i | 0 < i < |ops| :: OperatedSoonAfter(ops, i, duration)
    ensures LedAfter(ops[..end], duration, Bits32) == LedAfter(ops[..end], duration, Unbounded)
    ensures var led := LedAfter(ops[..end], duration, Unbounded);
            led.lit ==> end > 0 && led.litSince <= ops[end - 1].at && ops[end - 1].at - led.litSince < duration
  {
    if end > 0 {
      LedWrapIsInvisible(ops, end - 1, duration);
      assert ops[..end][..end - 1] == ops[..end - 1];
      var led := LedAfter(ops[..end - 1], duration, Unbounded);
      if led.lit {
        assert OperatedSoonAfter(ops, end - 1, duration);
        ElapsedBelowModulus(ops[end - 1].at, led.litSince);
      }
    }
  }
}
