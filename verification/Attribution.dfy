/** Which turnout a state ack is taken to be about. The ack carries no address; the bridge takes the
    oldest address it expects. With an in-order, lossless command station that is always the turnout
    the station reports; without one the error is characterised exactly. */
module Attribution {
  import opened Basics
  import opened LocoNet
  import opened Codec
  import opened Scheduler
  import opened TurnoutDecoder
  import Mqtt
  import opened TableQuery
  import opened Time
  import opened Bridge
  import opened SendOrder

  // -------------------------------------- what holds with no assumption

  /** Claims come out of the queue in the order expectations went in, and expectations are whole
      batches of addresses 1 to 48. */
  predicate QueueInOrder(w: World)
  {
    && w.claimed + w.decoder.fifo == w.expected
    && |w.expected| % BATCH_SIZE == 0
    && forall i | 0 <= i < |w.expected| :: w.expected[i] == MIN_TURNOUT_ADDRESS + i % BATCH_SIZE
  }

  lemma WholeBatches(expected: seq<int>)
    requires |expected| % BATCH_SIZE == 0
    requires forall i | 0 <= i < |expected| :: expected[i] == MIN_TURNOUT_ADDRESS + i % BATCH_SIZE
    ensures var more := expected + Batch();
            && |more| % BATCH_SIZE == 0
            && forall i | 0 <= i < |more| :: more[i] == MIN_TURNOUT_ADDRESS + i % BATCH_SIZE
  {
  }

  lemma OtherStepLeavesQueue(w: World, step: Step)
    requires !step.Receive? && !step.CheckQuery?
    ensures var w' := Next(w, step);
            w'.claimed == w.claimed && w'.decoder == w.decoder && w'.expected == w.expected
  {
  }

  lemma ReceiveKeepsQueue(w: World, m: Frame)
    requires w.claimed + w.decoder.fifo == w.expected
    ensures var w' := ReceiveStep(w, m); w'.claimed + w'.decoder.fifo == w'.expected && w'.expected == w.expected
  {
  }

  lemma QueryKeepsQueue(w: World, r: Reading, sendAt: seq<nat>)
    requires QueueInOrder(w)
    ensures QueueInOrder(QueryStep(w, r, sendAt))
  {
    WholeBatches(w.expected);
    Regroup(w.claimed, w.decoder.fifo, Batch());
  }

  lemma StepKeepsQueue(w: World, step: Step)
    requires QueueInOrder(w)
    ensures QueueInOrder(Next(w, step))
  {
    match step {
      case Receive(m) => ReceiveKeepsQueue(w, m);
      case CheckQuery(r, sendAt) => QueryKeepsQueue(w, r, sendAt);
      case _ => OtherStepLeavesQueue(w, step);
    }
  }

  lemma {:induction false} RunKeepsQueue(w: World, steps: seq<Step>)
    requires QueueInOrder(w) && IsRun(w, steps)
    ensures QueueInOrder(RunFrom(w, steps))
    decreases |steps|
  {
    if steps != [] {
      StepKeepsQueue(w, steps[0]);
      RunKeepsQueue(Next(w, steps[0]), steps[1..]);
    }
  }

  /** On every run, whatever the station does, the k-th claimed ack (from 0) is attributed to address
      1 + k mod 48, and no ack is ever claimed that was not expected. */
  lemma KthAckIsAttributedByCount(steps: seq<Step>, k: nat)
    requires IsRun(START_UP, steps) && k < |RunFrom(START_UP, steps).claimed|
    ensures RunFrom(START_UP, steps).claimed[k] == MIN_TURNOUT_ADDRESS + k % BATCH_SIZE
    ensures |RunFrom(START_UP, steps).claimed| <= |RunFrom(START_UP, steps).expected|
  {
    RunKeepsQueue(START_UP, steps);
    var w := RunFrom(START_UP, steps);
    assert w.claimed[k] == (w.claimed + w.decoder.fifo)[k];
  }

  /** The k-th entry ahead of a batch asked for now, if the answers still owed never come. */
  lemma EntryAfterStaleOnes(w: World, k: nat)
    requires QueueInOrder(w) && k < BATCH_SIZE
    ensures (w.decoder.fifo + Batch())[k] == Batch()[k] <==> |w.decoder.fifo| % BATCH_SIZE == 0
  {
    var c, more := |w.claimed|, w.expected + Batch();
    WholeBatches(w.expected);
    assert |w.expected| == c + |w.decoder.fifo|;
    assert w.claimed + w.decoder.fifo + Batch() == more;
    assert (w.decoder.fifo + Batch())[k] == more[c + k];
    assert Batch()[k] == MIN_TURNOUT_ADDRESS + k;
    SumsToMultiple(c, |w.decoder.fifo|);
    ShiftIsVisible(c, k);
  }

  /** The k-th of a row of state acks observes the k-th entry of the queue. */
  lemma KthAckObservesKthEntry(d: Decoder, acks: seq<Frame>, k: nat)
    requires (forall i | 0 <= i < |acks| :: IsStateAck(acks[i]))
    requires k < |acks| <= |d.fifo| && IsStateAck(acks[k])
    ensures Observation(HandleAll(d, acks[..k]).fifo, acks[k]) == Some(Turnout(d.fifo[k], PositionFrom(acks[k])))
  {
    AcksConsumeInOrder(d, acks[..k]);
  }

  /** Replies lost with a connection leave stale entries in the queue; a reconnect does not clear
      them. When the next batch is asked for and its 48 answers come, in order and with nothing else,
      each is observed for the turnout it answers if and only if the number of stale entries is a
      multiple of 48; otherwise every one is taken for another turnout. */
  lemma StaleEntriesShiftEveryAnswer(steps: seq<Step>, acks: seq<Frame>)
    requires IsRun(START_UP, steps)
    requires |acks| == BATCH_SIZE && forall i | 0 <= i < |acks| :: IsStateAck(acks[i])
    ensures var d := RunFrom(START_UP, steps).decoder;
            var asked := d.(fifo := d.fifo + Batch());
            forall k | 0 <= k < BATCH_SIZE ::
              && ((d.fifo + Batch())[k] == Batch()[k] <==> |d.fifo| % BATCH_SIZE == 0)
              && IsStateAck(acks[k])
              && (Observation(HandleAll(asked, acks[..k]).fifo, acks[k])
                  == Some(Turnout(Batch()[k], PositionFrom(acks[k])))
                  <==> |d.fifo| % BATCH_SIZE == 0)
  {
    RunKeepsQueue(START_UP, steps);
    var w := RunFrom(START_UP, steps);
    var asked := w.decoder.(fifo := w.decoder.fifo + Batch());
    forall k: nat | k < BATCH_SIZE
      ensures (w.decoder.fifo + Batch())[k] == Batch()[k] <==> |w.decoder.fifo| % BATCH_SIZE == 0
      ensures IsStateAck(acks[k])
      ensures Observation(HandleAll(asked, acks[..k]).fifo, acks[k])
              == Some(Turnout(Batch()[k], PositionFrom(acks[k])))
              <==> |w.decoder.fifo| % BATCH_SIZE == 0
    {
      EntryAfterStaleOnes(w, k);
      KthAckObservesKthEntry(asked, acks, k);
    }
  }

  // A run that gets there: a batch is asked for, the first request leaves and is answered, the
  // connection drops, the other requests leave for nobody, and the connection comes back.

  const ANY_ACK: Frame := [OPC_LONG_ACK, SWITCH_STATE_ACK_CODE, 0x20, 0x57]

  function CheckAt(connected: bool, at: nat): Step
  {
    CheckQuery(Reading(connected, at, at), seq(BATCH_SIZE, _ => at))
  }

  const ANSWERS_LOST: seq<Step> :=
    [CheckAt(true, 0), CheckAt(true, 2000), RunScheduler(2000), Receive(ANY_ACK), CheckAt(false, 2000),
     RunScheduler(3000), CheckAt(true, 3000)]

  /** A run, its clock and what the bridge holds of the connection and the queue. */
  ghost predicate Reaches(steps: seq<Step>, clock: nat, query: Query, fifo: seq<int>)
  {
    var w := RunFrom(START_UP, steps);
    IsRun(START_UP, steps) && w.clock == clock && w.query == query && w.decoder.fifo == fifo
  }

  lemma CheckFollows(w: World, connected: bool, at: nat)
    requires w.clock <= at
    ensures var r, w' := Reading(connected, at, at), Next(w, CheckAt(connected, at));
            && Enabled(w, CheckAt(connected, at))
            && w'.clock == at && w'.query == QueryNext(w.query, r, Bits32)
            && w'.decoder.fifo == w.decoder.fifo + if Fires(w.query, r, Bits32) then Batch() else []
  {
  }

  lemma CheckReaches(steps: seq<Step>, clock: nat, query: Query, fifo: seq<int>, connected: bool, at: nat)
    requires Reaches(steps, clock, query, fifo) && clock <= at
    ensures var r := Reading(connected, at, at);
            Reaches(steps + [CheckAt(connected, at)], at, QueryNext(query, r, Bits32),
                    fifo + if Fires(query, r, Bits32) then Batch() else [])
  {
    CheckFollows(RunFrom(START_UP, steps), connected, at);
    RunSnoc(START_UP, steps, CheckAt(connected, at));
  }

  lemma ScanReaches(steps: seq<Step>, clock: nat, query: Query, fifo: seq<int>, at: nat)
    requires Reaches(steps, clock, query, fifo) && clock <= at
    ensures Reaches(steps + [RunScheduler(at)], at, query, fifo)
  {
    RunSnoc(START_UP, steps, RunScheduler(at));
  }

  lemma AckReaches(steps: seq<Step>, clock: nat, query: Query, fifo: seq<int>)
    requires Reaches(steps, clock, query, fifo) && fifo != []
    ensures Reaches(steps + [Receive(ANY_ACK)], clock, query, fifo[1..])
  {
    assert [clock] + [] == [clock];
    RunSnoc(START_UP, steps, Receive(ANY_ACK));
  }

  const ONE_ANSWERED: seq<Step> := [CheckAt(true, 0), CheckAt(true, 2000), RunScheduler(2000), Receive(ANY_ACK)]

  lemma OneIsAnswered()
    ensures Reaches(ONE_ANSWERED, 2000, Query(Some(0), true), Batch()[1..])
  {
    var steps: seq<Step> := [];
    CheckReaches(steps, 0, QUERY_START, [], true, 0);
    steps := steps + [CheckAt(true, 0)];
    CheckReaches(steps, 0, Query(Some(0), false), [], true, 2000);
    steps := steps + [CheckAt(true, 2000)];
    assert [] + Batch() == Batch();
    ScanReaches(steps, 2000, Query(Some(0), true), Batch(), 2000);
    steps := steps + [RunScheduler(2000)];
    AckReaches(steps, 2000, Query(Some(0), true), Batch());
    assert steps + [Receive(ANY_ACK)] == ONE_ANSWERED;
  }

  lemma OthersAreLost()
    ensures Reaches(ANSWERS_LOST, 3000, Query(Some(3000), false), Batch()[1..])
  {
    OneIsAnswered();
    var steps, stale := ONE_ANSWERED, Batch()[1..];
    CheckReaches(steps, 2000, Query(Some(0), true), stale, false, 2000);
    assert stale + [] == stale;
    steps := steps + [CheckAt(false, 2000)];
    ScanReaches(steps, 2000, QUERY_START, stale, 3000);
    steps := steps + [RunScheduler(3000)];
    CheckReaches(steps, 3000, QUERY_START, stale, true, 3000);
    assert steps + [CheckAt(true, 3000)] == ANSWERS_LOST;
  }

  /** So answers are taken for the wrong turnout: after ANSWERS_LOST 47 entries are stale; two seconds
      later the bridge asks again, and the answer to its first request is observed for turnout 2. */
  lemma AnswersCanBeMisread()
    ensures IsRun(START_UP, ANSWERS_LOST)
    ensures var w := RunFrom(START_UP, ANSWERS_LOST);
            && |w.decoder.fifo| == 47
            && Enabled(w, CheckAt(true, 5000)) && Fires(w.query, Reading(true, 5000, 5000), Bits32)
            && Observation(Next(w, CheckAt(true, 5000)).decoder.fifo, ANY_ACK) == Some(Turnout(2, Closed))
  {
    OthersAreLost();
    NextBatchIsMisread(RunFrom(START_UP, ANSWERS_LOST));
  }

  lemma NextBatchIsMisread(w: World)
    requires w.clock == 3000 && w.query == Query(Some(3000), false) && w.decoder.fifo == Batch()[1..]
    ensures |w.decoder.fifo| == 47
    ensures Enabled(w, CheckAt(true, 5000)) && Fires(w.query, Reading(true, 5000, 5000), Bits32)
    ensures Observation(Next(w, CheckAt(true, 5000)).decoder.fifo, ANY_ACK) == Some(Turnout(2, Closed))
  {
    CheckFollows(w, true, 5000);
    assert (Batch()[1..] + Batch())[0] == 2;
  }

  lemma SumsToMultiple(a: nat, b: nat)
    requires (a + b) % BATCH_SIZE == 0
    ensures a % BATCH_SIZE == 0 <==> b % BATCH_SIZE == 0
  {
  }

  lemma ShiftIsVisible(c: nat, k: nat)
    requires k < BATCH_SIZE
    ensures (c + k) % BATCH_SIZE == k <==> c % BATCH_SIZE == 0
  {
  }

  /** One foreign state ack ahead of the answers: every later answer is taken to be about the turnout
      after the true one, and the last answer is about nobody. */
  lemma {:induction false} ForeignAckShiftsTheRest(d: Decoder, foreign: Frame, acks: seq<Frame>, k: nat)
    requires IsStateAck(foreign) && (forall i | 0 <= i < |acks| :: IsStateAck(acks[i]))
    requires k < |acks| == |d.fifo| && IsStateAck(acks[k])
    ensures var seen := Observation(HandleAll(d, [foreign] + acks[..k]).fifo, acks[k]);
            seen == if k + 1 < |d.fifo| then Some(Turnout(d.fifo[k + 1], PositionFrom(acks[k]))) else None
  {
    assert ([foreign] + acks[..k])[1..] == acks[..k];
    AcksConsumeInOrder(Handle(d, foreign), acks[..k]);
  }

  lemma {:induction false} AcksConsumeInOrder(d: Decoder, acks: seq<Frame>)
    requires (forall i | 0 <= i < |acks| :: IsStateAck(acks[i])) && |acks| <= |d.fifo|
    ensures HandleAll(d, acks).fifo == d.fifo[|acks|..]
    decreases |acks|
  {
    if acks != [] {
      AcksConsumeInOrder(Handle(d, acks[0]), acks[1..]);
    }
  }

  lemma NeighboursDiffer(w: World, k: nat)
    requires QueueInOrder(w) && k + 1 < |w.decoder.fifo|
    ensures w.decoder.fifo[k] != w.decoder.fifo[k + 1]
  {
    var c := |w.claimed|;
    assert w.decoder.fifo[k] == w.expected[c + k] && w.decoder.fifo[k + 1] == w.expected[c + k + 1];
    StepsDiffer(c + k);
  }

  lemma StepsDiffer(n: nat)
    ensures n % BATCH_SIZE != (n + 1) % BATCH_SIZE
  {
  }

  /** On every run the turnout after the true one is another turnout, so after one foreign ack not a
      single outstanding answer is observed for the turnout it answers. */
  lemma ForeignAckSpoilsEveryAnswer(steps: seq<Step>, foreign: Frame, acks: seq<Frame>, k: nat)
    requires IsRun(START_UP, steps) && IsStateAck(foreign)
    requires (forall i | 0 <= i < |acks| :: IsStateAck(acks[i]))
    requires k < |acks| == |RunFrom(START_UP, steps).decoder.fifo| && IsStateAck(acks[k])
    ensures var d := RunFrom(START_UP, steps).decoder;
            Observation(HandleAll(d, [foreign] + acks[..k]).fifo, acks[k])
            != Some(Turnout(d.fifo[k], PositionFrom(acks[k])))
  {
    RunKeepsQueue(START_UP, steps);
    var w := RunFrom(START_UP, steps);
    ForeignAckShiftsTheRest(w.decoder, foreign, acks, k);
    if k + 1 < |w.decoder.fifo| {
      NeighboursDiffer(w, k);
    }
  }

  /** On every run, a frame that says a position leaves the turnout it is taken to be about in exactly
      that position: Closed if bit 5 of its third byte is set, Thrown if it is clear. */
  lemma ReceivedFrameDecides(steps: seq<Step>, m: Frame)
    requires IsRun(START_UP, steps)
    ensures IsRun(START_UP, steps + [Receive(m)])
    ensures var before, after := RunFrom(START_UP, steps).decoder, RunFrom(START_UP, steps + [Receive(m)]).decoder;
            && (AcksSwitch(m) && before.fifo != [] ==>
                  Lookup(after.table, before.fifo[0]) == Some(SaidPosition(m)))
            && (OwnReport(m).Some? ==> Lookup(after.table, SaidAddress(m)) == Some(SaidPosition(m)))
            && (!AcksSwitch(m) && OwnReport(m).None? ==> after == before)
  {
    var w := RunFrom(START_UP, steps);
    assert [w.clock] + [] == [w.clock];
    RunSnoc(START_UP, steps, Receive(m));
    ObservationIsWhatIsSaid(w.decoder.fifo, m);
  }

  // ------------------------------------ an in-order, lossless command station

  /** A line on its way to the bridge. `answers` is the turnout a state ack is really about. */
  datatype Line = Line(text: string, answers: Option<Turnout>)

  /** The bridge together with its surroundings. `told` is the last position each turnout was
      reported in by the lines delivered so far, each taken to be about the turnout it truly is. */
  datatype Layout = Layout(bridge: World, unanswered: seq<int>, inFlight: seq<Line>, told: map<int, Position>)

  const QUIET := Layout(START_UP, [], [], map[])

  datatype Event =
    | Internal(step: Step)                      // the bridge acts; requests it sends reach the station
    | Answer(position: Position, text: string)  // the station answers the oldest unanswered request
    | Traffic(text: string)                     // any other line: bus traffic, echo, notice
    | Deliver                                   // the bridge reads the oldest line in flight

  function SentRequests(departures: seq<Departure>): seq<int> { RequestedAddresses(ReleasedSends(departures)) }

  /** A line that holds a switch-state ack. */
  predicate CarriesAck(text: string) { DecodeLine(text).Some? && AcksSwitch(DecodeLine(text).value) }

  predicate Possible(l: Layout, e: Event)
  {
    match e
    case Internal(step) => !step.Receive? && Enabled(l.bridge, step)
    case Answer(position, text) =>
      l.unanswered != [] && CarriesAck(text) && SaidPosition(DecodeLine(text).value) == position
    case Traffic(text) => !CarriesAck(text)
    case Deliver => l.inFlight != []
  }

  /** What a delivered line truly reports, read off its bits: its own address, or for an ack the turnout
      it answers. */
  function TrueReport(line: Line): Option<Turnout>
  {
    if line.answers.Some? then line.answers
    else if DecodeLine(line.text).None? then None
    else OwnReport(DecodeLine(line.text).value)
  }

  ghost function After(l: Layout, e: Event): Layout
    requires Possible(l, e)
  {
    match e
    case Internal(step) =>
      var next := Next(l.bridge, step);
      var leaving := if step.RunScheduler? then next.sent[|l.bridge.sent|..] else [];
      l.(bridge := next, unanswered := l.unanswered + SentRequests(leaving))
    case Answer(position, text) =>
      l.(unanswered := l.unanswered[1..],
         inFlight := l.inFlight + [Line(text, Some(Turnout(l.unanswered[0], position)))])
    case Traffic(text) => l.(inFlight := l.inFlight + [Line(text, None)])
    case Deliver =>
      var line := l.inFlight[0];
      var m := DecodeLine(line.text);
      l.(bridge := if m.Some? then Next(l.bridge, Receive(m.value)) else l.bridge,
         inFlight := l.inFlight[1..],
         told := TableAfter(l.told, TrueReport(line)))
  }

  function AnswersInFlight(lines: seq<Line>): seq<int>
  {
    if lines == [] then []
    else if lines[0].answers.Some? then [lines[0].answers.value.address] + AnswersInFlight(lines[1..])
    else AnswersInFlight(lines[1..])
  }

  /** The queue is exactly: answers on their way, requests the station still owes an answer, requests
      still waiting to be sent - in that order. */
  ghost predicate InStep(l: Layout)
  {
    && RequestsInOrder(l.bridge)
    && l.bridge.decoder.fifo
       == AnswersInFlight(l.inFlight) + l.unanswered + RequestedAddresses(l.bridge.pending)
    && (forall line | line in l.inFlight :: Genuine(line))
    && l.bridge.decoder.table == l.told
  }

  predicate Genuine(line: Line)
  {
    if line.answers.Some?
    then CarriesAck(line.text) && SaidPosition(DecodeLine(line.text).value) == line.answers.value.position
    else !CarriesAck(line.text)
  }

  lemma {:induction false} AnswersAppend(a: seq<Line>, b: seq<Line>)
    ensures AnswersInFlight(a + b) == AnswersInFlight(a) + AnswersInFlight(b)
  {
    if a == [] {
      assert a + b == b;
    } else {
      assert (a + b)[1..] == a[1..] + b;
      AnswersAppend(a[1..], b);
    }
  }

  lemma ScanMovesRequests(l: Layout, now: nat)
    requires InStep(l) && Possible(l, Internal(RunScheduler(now)))
    ensures InStep(After(l, Internal(RunScheduler(now))))
  {
    var w := l.bridge;
    var due, kept := Due(w.pending, now), Kept(w.pending, now);
    StepKeepsRequests(w, RunScheduler(now));
    RequestsSplit(w, now);
    var l' := After(l, Internal(RunScheduler(now)));
    assert l'.bridge.sent[|w.sent|..] == Releases(due, now);
    ReleasedOfReleases(due, now);
    var answers := AnswersInFlight(l.inFlight);
    Regroup(answers + l.unanswered, RequestedAddresses(due), RequestedAddresses(kept));
    Regroup(answers, l.unanswered, RequestedAddresses(due));
  }

  lemma RequestsSplit(w: World, now: nat)
    requires RequestsInOrder(w)
    ensures RequestedAddresses(Due(w.pending, now)) + RequestedAddresses(Kept(w.pending, now))
            == RequestedAddresses(w.pending)
  {
    var released := Only(ReleasedSends(w.sent), IsStateRequest);
    assert InDueOrder(Only(w.pending, IsStateRequest)) by {
      assert Only(w.pending, IsStateRequest) == Only(w.scheduled, IsStateRequest)[|released|..];
    }
    ScanTakesPrefixOfKind(w.pending, IsStateRequest, now);
    OnlyMembers(Due(w.pending, now), IsStateRequest);
    OnlyMembers(Kept(w.pending, now), IsStateRequest);
    AddressesAppend(Only(Due(w.pending, now), IsStateRequest), Only(Kept(w.pending, now), IsStateRequest));
  }

  /** Steps that let nothing out and do not ask add no request and leave the decoder alone. */
  lemma PlainStepKeepsFields(w: World, step: Step)
    requires step.CheckRepublish? || step.CheckStatus?
    ensures Next(w, step).pending == w.pending && Next(w, step).decoder == w.decoder
  {
  }

  lemma QueryExtendsBoth(w: World, r: Reading, sendAt: seq<nat>)
    requires |sendAt| == BATCH_SIZE
    ensures var w' := QueryStep(w, r, sendAt);
            && w'.decoder.table == w.decoder.table
            && (if Fires(w.query, r, Bits32)
                then w'.decoder.fifo == w.decoder.fifo + Batch()
                     && RequestedAddresses(w'.pending) == RequestedAddresses(w.pending) + Batch()
                else w' == w.(query := w'.query))
  {
    BatchIsRequests(sendAt);
    RequestedAppend(w.pending, BatchSends(sendAt));
  }

  lemma CommandAddsNoRequest(w: World, message: Mqtt.IncomingMqttMessage, at: nat)
    ensures var w' := CommandStep(w, message, at);
            w'.decoder == w.decoder && RequestedAddresses(w'.pending) == RequestedAddresses(w.pending)
  {
    if Mqtt.CommandOf(message).Some? {
      var t := Mqtt.CommandOf(message).value;
      OffPulseIsNoRequest(t, at);
      RequestedAppend(w.pending, [OffSend(t, at)]);
    }
  }

  lemma OtherStepKeepsStep(l: Layout, step: Step)
    requires InStep(l) && Possible(l, Internal(step)) && !step.RunScheduler?
    ensures InStep(After(l, Internal(step)))
  {
    var w := l.bridge;
    StepKeepsRequests(w, step);
    assert l.unanswered + SentRequests([]) == l.unanswered;
    match step {
      case CheckQuery(r, sendAt) =>
        QueryExtendsBoth(w, r, sendAt);
        Regroup(AnswersInFlight(l.inFlight) + l.unanswered, RequestedAddresses(w.pending), Batch());
      case Command(message, at) => CommandAddsNoRequest(w, message, at);
      case _ => PlainStepKeepsFields(w, step);
    }
  }

  lemma AnswerKeepsStep(l: Layout, position: Position, text: string)
    requires InStep(l) && Possible(l, Answer(position, text))
    ensures InStep(After(l, Answer(position, text)))
  {
    var a := l.unanswered[0];
    var line := Line(text, Some(Turnout(a, position)));
    AnswersAppend(l.inFlight, [line]);
    assert AnswersInFlight([line]) == [a];
    Regroup(AnswersInFlight(l.inFlight), [a], l.unanswered[1..]);
    assert [a] + l.unanswered[1..] == l.unanswered;
  }

  lemma TrafficKeepsStep(l: Layout, text: string)
    requires InStep(l) && Possible(l, Traffic(text))
    ensures InStep(After(l, Traffic(text)))
  {
    AnswersAppend(l.inFlight, [Line(text, None)]);
  }

  /** The heart of it: the line read next, if it is an ack, answers exactly the address at the head of
      the queue; so the observation made is the true report. */
  lemma DeliveryIsReadTruly(l: Layout)
    requires InStep(l) && l.inFlight != []
    ensures var line := l.inFlight[0];
            var m := DecodeLine(line.text);
            && (line.answers.Some? ==>
                  && l.bridge.decoder.fifo != []
                  && l.bridge.decoder.fifo[0] == line.answers.value.address)
            && TrueReport(line) == (if m.Some? then Observation(l.bridge.decoder.fifo, m.value) else None)
  {
    var line := l.inFlight[0];
    assert line in l.inFlight && Genuine(line);
    var m := DecodeLine(line.text);
    if m.Some? {
      ObservationIsWhatIsSaid(l.bridge.decoder.fifo, m.value);
    }
    if line.answers.Some? {
      assert AnswersInFlight(l.inFlight)[0] == line.answers.value.address;
    }
  }

  lemma DeliveryConsumesAnswer(l: Layout)
    requires InStep(l) && l.inFlight != []
    ensures var m := DecodeLine(l.inFlight[0].text);
            (if m.Some? then FifoAfter(l.bridge.decoder.fifo, m.value) else l.bridge.decoder.fifo)
            == AnswersInFlight(l.inFlight[1..]) + l.unanswered + RequestedAddresses(l.bridge.pending)
  {
    var line := l.inFlight[0];
    assert line in l.inFlight && Genuine(line);
    if DecodeLine(line.text).Some? {
      ObservationIsWhatIsSaid(l.bridge.decoder.fifo, DecodeLine(line.text).value);
    }
    if line.answers.Some? {
      var rest := AnswersInFlight(l.inFlight[1..]);
      PopFront(line.answers.value.address, rest, l.unanswered, RequestedAddresses(l.bridge.pending));
    }
  }

  lemma PopFront(a: int, x: seq<int>, y: seq<int>, z: seq<int>)
    ensures ([a] + x) + y + z == [a] + (x + y + z)
    ensures (([a] + x) + y + z)[1..] == x + y + z
  {
  }

  lemma DeliverKeepsStep(l: Layout)
    requires InStep(l) && l.inFlight != []
    ensures InStep(After(l, Deliver))
  {
    DeliveryIsReadTruly(l);
    DeliveryConsumesAnswer(l);
    var m := DecodeLine(l.inFlight[0].text);
    var l' := After(l, Deliver);
    if m.Some? {
      StepKeepsRequests(l.bridge, Receive(m.value));
      assert l'.bridge.pending == l.bridge.pending;
      assert l'.bridge.decoder == Handle(l.bridge.decoder, m.value);
    }
    assert RequestsInOrder(l'.bridge);
  }

  lemma EventKeepsStep(l: Layout, e: Event)
    requires InStep(l) && Possible(l, e)
    ensures InStep(After(l, e))
  {
    match e {
      case Internal(step) =>
        if step.RunScheduler? {
          ScanMovesRequests(l, step.now);
        } else {
          OtherStepKeepsStep(l, step);
        }
      case Answer(position, text) => AnswerKeepsStep(l, position, text);
      case Traffic(text) => TrafficKeepsStep(l, text);
      case Deliver => DeliverKeepsStep(l);
    }
  }

  ghost predicate IsHistory(l: Layout, events: seq<Event>)
    decreases |events|
  {
    events == [] || (Possible(l, events[0]) && IsHistory(After(l, events[0]), events[1..]))
  }

  ghost function Outcome(l: Layout, events: seq<Event>): Layout
    requires IsHistory(l, events)
    decreases |events|
  {
    if events == [] then l else Outcome(After(l, events[0]), events[1..])
  }

  lemma {:induction false} HistoryKeepsStep(l: Layout, events: seq<Event>)
    requires InStep(l) && IsHistory(l, events)
    ensures InStep(Outcome(l, events))
    decreases |events|
  {
    if events != [] {
      EventKeepsStep(l, events[0]);
      HistoryKeepsStep(After(l, events[0]), events[1..]);
    }
  }

  lemma QuietIsInStep()
    ensures InStep(QUIET)
  {
    assert RequestsInOrder(START_UP);
  }

  /** With a station that answers each request once and in order, and no lost lines or foreign acks:
      after any history, with any interleaving of ticks, reconnects, commands, bus traffic and late
      reads, the table holds for every turnout exactly what the lines read so far truly said of it,
      and the queue is the answers in flight, then the requests owed, then the requests unsent. */
  lemma AttributionIsCorrect(events: seq<Event>)
    requires IsHistory(QUIET, events)
    ensures var l := Outcome(QUIET, events);
            && l.bridge.decoder.table == l.told
            && l.bridge.decoder.fifo
               == AnswersInFlight(l.inFlight) + l.unanswered + RequestedAddresses(l.bridge.pending)
  {
    QuietIsInStep();
    HistoryKeepsStep(QUIET, events);
  }
}
