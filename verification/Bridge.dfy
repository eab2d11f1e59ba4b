/** The bridge as a stepped protocol: one step per call that the main loop makes, over a clock whose
    readings never decrease, with histories of what was asked, sent, claimed and published. */
module Bridge {
  import opened LocoNet
  import opened Time
  import opened Scheduler
  import opened TurnoutDecoder
  import opened Mqtt
  import opened Timers
  import opened TableQuery

  const OFF_PULSE_DELAY_MS: nat := 250

  /** A frame handed to the port: at once, or released from the list by a scan. `at` is a clock
      reading: for an immediate send one taken just after it, for a release the scan's. */
  datatype Departure =
    | Immediate(frame: Frame, at: nat)
    | Released(send: PendingSend, at: nat)
  {
    function Message(): Frame { if Immediate? then frame else send.message }
  }

  /** An MQTT set command that was acted on; `at` is the reading taken after its ON pulse left. */
  datatype Accepted = Accepted(turnout: Turnout, at: nat)

  datatype World = World(
    clock: nat,
    pending: seq<PendingSend>,
    query: Query,
    decoder: Decoder,
    lastRepublishAt: nat,
    status: Status,
    // histories
    scheduled: seq<PendingSend>,
    sent: seq<Departure>,
    expected: seq<int>,
    claimed: seq<int>,
    commands: seq<Accepted>,
    logged: seq<Frame>,
    published: seq<MqttMessage>)

  const START_UP := World(0, [], QUERY_START, EMPTY, 0, UNKNOWN, [], [], [], [], [], [], [])

  /** The steps, each with the clock readings it takes. */
  datatype Step =
    | RunScheduler(now: nat)
    | Receive(frame: Frame)
    | CheckRepublish(check: Check)
    | CheckStatus(status: StatusReading)
    | CheckQuery(reading: Reading, sendAt: seq<nat>)
    | Command(message: IncomingMqttMessage, at: nat)

  function Readings(step: Step): seq<nat>
  {
    match step
    case RunScheduler(now) => [now]
    case Receive(_) => []
    case CheckRepublish(c) => [c.readAt, c.stampAt]
    case CheckStatus(r) => [r.changeAt, r.readAt, r.dueAt]
    case CheckQuery(r, sendAt) => [r.sinceAt, r.readyAt] + sendAt
    case Command(_, at) => [at]
  }

  /** The clock readings of the step continue the ascending sequence of readings. */
  predicate Enabled(w: World, step: Step)
  {
    Ascending([w.clock] + Readings(step)) && (step.CheckQuery? ==> |step.sendAt| == BATCH_SIZE)
  }

  function Releases(sends: seq<PendingSend>, at: nat): seq<Departure>
  {
    seq(|sends|, i requires 0 <= i < |sends| => Released(sends[i], at))
  }

  function SchedulerStep(w: World, now: nat): World
  {
    w.(pending := Kept(w.pending, now), sent := w.sent + Releases(Due(w.pending, now), now))
  }

  function ReceiveStep(w: World, m: Frame): World
  {
    var event := Emission(w.decoder, m);
    w.(decoder := Handle(w.decoder, m),
       claimed := if IsStateAck(m) && w.decoder.fifo != [] then w.claimed + [w.decoder.fifo[0]] else w.claimed,
       logged := w.logged + [m],
       published := if event.Some? then w.published + [EncodeState(event.value)] else w.published)
  }

  ghost function RepublishStep(w: World, c: Check): World
  {
    w.(lastRepublishAt := RepublishNext(w.lastRepublishAt, c, Bits32),
       published := if RepublishDue(w.lastRepublishAt, c, Bits32)
                    then w.published + EncodeStates(KnownStates(w.decoder.table)) else w.published)
  }

  function StatusStep(w: World, r: StatusReading): World
  {
    w.(status := StatusNext(w.status, r, Bits32),
       published := w.published + StatusMessages(w.status, r, Bits32))
  }

  function QueryStep(w: World, r: Reading, sendAt: seq<nat>): World
  {
    var next := w.(query := QueryNext(w.query, r, Bits32));
    if !Fires(w.query, r, Bits32) then next
    else
      next.(decoder := w.decoder.(fifo := w.decoder.fifo + Batch()),
            expected := w.expected + Batch(),
            pending := w.pending + BatchSends(sendAt),
            scheduled := w.scheduled + BatchSends(sendAt))
  }

  function OffSend(t: Turnout, at: nat): PendingSend { PendingSend(BuildSwReq(t, false), at + OFF_PULSE_DELAY_MS) }

  function CommandStep(w: World, message: IncomingMqttMessage, at: nat): World
  {
    var t := CommandOf(message);
    if t.None? then w
    else
      w.(sent := w.sent + [Immediate(BuildSwReq(t.value, true), at)],
         pending := w.pending + [OffSend(t.value, at)],
         scheduled := w.scheduled + [OffSend(t.value, at)],
         commands := w.commands + [Accepted(t.value, at)])
  }

  function Last(readings: seq<nat>, clock: nat): nat { if readings == [] then clock else readings[|readings| - 1] }

  ghost function Next(w: World, step: Step): World
  {
    var after := match step
      case RunScheduler(now) => SchedulerStep(w, now)
      case Receive(m) => ReceiveStep(w, m)
      case CheckRepublish(c) => RepublishStep(w, c)
      case CheckStatus(r) => StatusStep(w, r)
      case CheckQuery(r, sendAt) => QueryStep(w, r, sendAt)
      case Command(message, at) => CommandStep(w, message, at);
    after.(clock := Last(Readings(step), w.clock))
  }

  // ---------------------------------------------------------------- runs

  ghost predicate IsRun(w: World, steps: seq<Step>)
    decreases |steps|
  {
    steps == [] || (Enabled(w, steps[0]) && IsRun(Next(w, steps[0]), steps[1..]))
  }

  ghost function RunFrom(w: World, steps: seq<Step>): World
    decreases |steps|
  {
    if steps == [] then w else RunFrom(Next(w, steps[0]), steps[1..])
  }

  lemma {:induction false} RunAppend(w: World, a: seq<Step>, b: seq<Step>)
    requires IsRun(w, a) && IsRun(RunFrom(w, a), b)
    ensures IsRun(w, a + b) && RunFrom(w, a + b) == RunFrom(RunFrom(w, a), b)
    decreases |a|
  {
    if a == [] {
      assert a + b == b;
    } else {
      assert (a + b)[0] == a[0] && (a + b)[1..] == a[1..] + b;
      RunAppend(Next(w, a[0]), a[1..], b);
    }
  }

  lemma {:induction false} RunParts(w: World, a: seq<Step>, b: seq<Step>)
    requires IsRun(w, a + b)
    ensures IsRun(w, a) && IsRun(RunFrom(w, a), b) && RunFrom(w, a + b) == RunFrom(RunFrom(w, a), b)
    decreases |a|
  {
    if a == [] {
      assert a + b == b;
    } else {
      assert (a + b)[0] == a[0] && (a + b)[1..] == a[1..] + b;
      RunParts(Next(w, a[0]), a[1..], b);
    }
  }

  lemma RunSnoc(w: World, steps: seq<Step>, step: Step)
    requires IsRun(w, steps) && Enabled(RunFrom(w, steps), step)
    ensures IsRun(w, steps + [step]) && RunFrom(w, steps + [step]) == Next(RunFrom(w, steps), step)
  {
    OneStep(RunFrom(w, steps), step);
    RunAppend(w, steps, [step]);
  }

  lemma OneStep(w: World, step: Step)
    requires Enabled(w, step)
    ensures IsRun(w, [step]) && RunFrom(w, [step]) == Next(w, step)
  {
  }

  lemma ClockAdvances(w: World, step: Step)
    requires Enabled(w, step)
    ensures w.clock <= Next(w, step).clock
  {
    var all := [w.clock] + Readings(step);
    assert all[0] == w.clock && all[|all| - 1] == Next(w, step).clock;
  }
}
