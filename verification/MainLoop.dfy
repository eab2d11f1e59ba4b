/** The main loop in normal mode: the classes wired as in the firmware, one tick after another, proved
    to be a run of the protocol; so every theorem about runs holds of the objects. */
module MainLoop {
  import opened Basics
  import Codec
  import opened LocoNet
  import opened LineFraming
  import Time
  import opened Scheduler
  import opened TurnoutDecoder
  import opened Mqtt
  import opened Timers
  import TableQuery
  import opened Bridge
  import opened SendOrder
  import opened Attribution
  import opened Station
  import Publication
  import opened Ports
  import opened Components

  function Commands(messages: seq<IncomingMqttMessage>, at: seq<nat>): seq<Step>
    requires |at| == |messages|
  {
    seq(|messages|, i requires 0 <= i < |messages| => Command(messages[i], at[i]))
  }

  function SentFrames(sent: seq<Departure>): seq<Frame>
  {
    seq(|sent|, i requires 0 <= i < |sent| => sent[i].Message())
  }

  /** What one tick reads from its surroundings. */
  datatype Tick = Tick(now: nat, frames: seq<Frame>, check: Check, status: StatusReading, reading: TableQuery.Reading,
                       sendAt: seq<nat>, messages: seq<IncomingMqttMessage>, at: seq<nat>)

  function StepsOf(tick: Tick): seq<Step>
    requires |tick.at| == |tick.messages|
  {
    [RunScheduler(tick.now)] + (Receives(tick.frames) + [CheckRepublish(tick.check)])
    + [CheckStatus(tick.status)] + [CheckQuery(tick.reading, tick.sendAt)] + Commands(tick.messages, tick.at)
  }

  // ------------------------------------------------- a tick beside a station

  function LaterSteps(tick: Tick): seq<Step>
    requires |tick.at| == |tick.messages|
  {
    [CheckRepublish(tick.check), CheckStatus(tick.status), CheckQuery(tick.reading, tick.sendAt)]
    + Commands(tick.messages, tick.at)
  }

  /** A tick that reads n lines, as events of the layout around the bridge. */
  function TickEvents(tick: Tick, n: nat): seq<Event>
    requires |tick.at| == |tick.messages|
  {
    Internals([RunScheduler(tick.now)]) + Deliveries(n) + Internals(LaterSteps(tick))
  }

  lemma StepsByPhase(tick: Tick)
    requires |tick.at| == |tick.messages|
    ensures StepsOf(tick) == [RunScheduler(tick.now)] + (Receives(tick.frames) + LaterSteps(tick))
  {
  }

  lemma TickParts(w: World, tick: Tick)
    requires |tick.at| == |tick.messages| && IsRun(w, StepsOf(tick))
    ensures IsRun(w, [RunScheduler(tick.now)])
    ensures var w1 := RunFrom(w, [RunScheduler(tick.now)]);
            var w2 := RunFrom(w1, Receives(tick.frames));
            IsRun(w2, LaterSteps(tick)) && RunFrom(w, StepsOf(tick)) == RunFrom(w2, LaterSteps(tick))
  {
    StepsByPhase(tick);
    RunParts(w, [RunScheduler(tick.now)], Receives(tick.frames) + LaterSteps(tick));
    RunParts(RunFrom(w, [RunScheduler(tick.now)]), Receives(tick.frames), LaterSteps(tick));
  }

  lemma LaterStepsReceiveNothing(tick: Tick)
    requires |tick.at| == |tick.messages|
    ensures forall i | 0 <= i < |LaterSteps(tick)| :: !LaterSteps(tick)[i].Receive?
  {
  }

  lemma TickLeads(l: Layout, tick: Tick, n: nat) returns (l': Layout)
    requires |tick.at| == |tick.messages| && IsRun(l.bridge, StepsOf(tick))
    requires n <= |l.inFlight| && Decodables(Texts(l.inFlight[..n])) == tick.frames
    ensures Leads(l, TickEvents(tick, n), l')
    ensures l'.bridge == RunFrom(l.bridge, StepsOf(tick)) && l'.inFlight == l.inFlight[n..]
  {
    TickParts(l.bridge, tick);
    LaterStepsReceiveNothing(tick);
    var l1 := InternalsLead(l, [RunScheduler(tick.now)]);
    var l2 := DeliveriesLead(l1, n);
    l' := InternalsLead(l2, LaterSteps(tick));
    LeadsThrough(l, Internals([RunScheduler(tick.now)]), l1, Deliveries(n), l2, Internals(LaterSteps(tick)), l');
  }

  // --------------------------------------------- what a phase does to the world

  /** Receiving a list of frames, as one change of the world. */
  function Received(w: World, frames: seq<Frame>): World
    decreases |frames|
  {
    if frames == [] then w else Received(ReceiveStep(w, frames[0]), frames[1..])
  }

  lemma {:induction false} ReceivesRun(w: World, frames: seq<Frame>)
    ensures IsRun(w, Receives(frames)) && RunFrom(w, Receives(frames)) == Received(w, frames)
    decreases |frames|
  {
    if frames != [] {
      var step := Receive(frames[0]);
      assert [w.clock] + Readings(step) == [w.clock];
      assert Next(w, step) == ReceiveStep(w, frames[0]);
      assert Receives(frames)[1..] == Receives(frames[1..]);
      ReceivesRun(ReceiveStep(w, frames[0]), frames[1..]);
    }
  }

  lemma {:induction false} ReceivedFields(w: World, frames: seq<Frame>)
    ensures var w' := Received(w, frames);
            && w' == w.(decoder := w'.decoder, claimed := w'.claimed, logged := w'.logged, published := w'.published)
            && w'.decoder == HandleAll(w.decoder, frames)
            && w'.logged == w.logged + frames
            && w'.published == w.published + EncodeStates(Emissions(w.decoder, frames))
    decreases |frames|
  {
    if frames != [] {
      var m := frames[0];
      ReceivedFields(ReceiveStep(w, m), frames[1..]);
      Regroup(w.logged, [m], frames[1..]);
      PublishedByFirst(w, frames);
    }
  }

  lemma PublishedByFirst(w: World, frames: seq<Frame>)
    requires frames != []
    ensures ReceiveStep(w, frames[0]).published
            + EncodeStates(Emissions(Handle(w.decoder, frames[0]), frames[1..]))
            == w.published + EncodeStates(Emissions(w.decoder, frames))
  {
    var event := Emission(w.decoder, frames[0]);
    var first := if event.Some? then [event.value] else [];
    var later := Emissions(Handle(w.decoder, frames[0]), frames[1..]);
    EncodeStatesAppend(first, later);
    Regroup(w.published, EncodeStates(first), EncodeStates(later));
    assert ReceiveStep(w, frames[0]).published == w.published + EncodeStates(first);
  }

  /** Acting on a queue of messages, as one change of the world. */
  ghost function Commanded(w: World, messages: seq<IncomingMqttMessage>, at: seq<nat>): World
    requires |at| == |messages|
    decreases |messages|
  {
    if messages == [] then w
    else
      var n := |messages| - 1;
      Next(Commanded(w, messages[..n], at[..n]), Command(messages[n], at[n]))
  }

  lemma EarlierReadings(first: nat, at: seq<nat>, n: nat)
    requires n < |at| && Time.Ascending([first] + at)
    ensures Time.Ascending([first] + at[..n])
    ensures ([first] + at[..n])[n] <= at[n] == ([first] + at)[n + 1]
  {
    var all, head := [first] + at, [first] + at[..n];
    assert forall i | 0 <= i < |head| :: head[i] == all[i];
    assert all[n] <= all[n + 1];
  }

  lemma NextReading(w: World, message: IncomingMqttMessage, at: nat)
    requires w.clock <= at
    ensures Enabled(w, Command(message, at)) && Next(w, Command(message, at)).clock == at
  {
  }

  lemma {:induction false} CommandsRun(w: World, messages: seq<IncomingMqttMessage>, at: seq<nat>)
    requires |at| == |messages| && Time.Ascending([w.clock] + at)
    ensures IsRun(w, Commands(messages, at)) && RunFrom(w, Commands(messages, at)) == Commanded(w, messages, at)
    ensures Commanded(w, messages, at).clock == ([w.clock] + at)[|at|]
    decreases |messages|
  {
    if messages != [] {
      var n := |messages| - 1;
      EarlierReadings(w.clock, at, n);
      CommandsRun(w, messages[..n], at[..n]);
      var before, step := Commanded(w, messages[..n], at[..n]), Command(messages[n], at[n]);
      NextReading(before, messages[n], at[n]);
      assert Commands(messages, at) == Commands(messages[..n], at[..n]) + [step];
      RunSnoc(w, Commands(messages[..n], at[..n]), step);
    }
  }

  lemma CommandAdds(w: World, message: IncomingMqttMessage, at: nat)
    ensures var w' := Next(w, Command(message, at));
            && w' == w.(clock := at, pending := w'.pending, sent := w'.sent, scheduled := w'.scheduled,
                        commands := w'.commands)
            && w'.pending == w.pending + SendOf(message, at)
            && SentFrames(w'.sent) == SentFrames(w.sent) + PulseOf(message)
  {
    if CommandOf(message).Some? {
      SentFramesSnoc(w.sent, Immediate(BuildSwReq(CommandOf(message).value, true), at));
    }
  }

  lemma {:induction false} CommandedFields(w: World, messages: seq<IncomingMqttMessage>, at: seq<nat>)
    requires |at| == |messages|
    ensures var w' := Commanded(w, messages, at);
            && w'.pending == w.pending + CommandSends(messages, at)
            && SentFrames(w'.sent) == SentFrames(w.sent) + CommandPulses(messages)
            && w' == w.(clock := w'.clock, pending := w'.pending, sent := w'.sent, scheduled := w'.scheduled,
                        commands := w'.commands)
    decreases |messages|
  {
    if messages != [] {
      var n := |messages| - 1;
      CommandedFields(w, messages[..n], at[..n]);
      CommandAdds(Commanded(w, messages[..n], at[..n]), messages[n], at[n]);
      Regroup(w.pending, CommandSends(messages[..n], at[..n]), SendOf(messages[n], at[n]));
      Regroup(SentFrames(w.sent), CommandPulses(messages[..n]), PulseOf(messages[n]));
    }
  }

  lemma SentFramesSnoc(sent: seq<Departure>, d: Departure)
    ensures SentFrames(sent + [d]) == SentFrames(sent) + [d.Message()]
  {
  }

  lemma SentFramesOfScan(sent: seq<Departure>, due: seq<PendingSend>, now: nat)
    ensures SentFrames(sent + Releases(due, now)) == SentFrames(sent) + Messages(due)
  {
  }

  // ------------------------------------------------------------- the firmware

  class Firmware {
    const clock: Clock
    const stream: SocketLineStream
    const mqttPort: MqttPort
    const messageLog: MessageLog
    const locoNetPort: LocoNetOverTcpPort
    const sendScheduler: PendingLocoNetSendScheduler
    const pendingAcks: PendingTurnoutStateAcks
    const decoder: TurnoutLocoNetDecoder
    const messageRouter: LocoNetMessageRouter
    const statusPublisher: JmriConnectionStatusPublisher
    const startupQuery: TurnoutTableStartupQuery
    const commandRouter: MqttCommandRouter

    ghost var trace: seq<Step>

    ghost function Repr(): set<object>
    {
      {this, clock, stream, stream.assembler, mqttPort, messageLog, locoNetPort, sendScheduler, pendingAcks, decoder,
       messageRouter, statusPublisher, startupQuery, commandRouter}
    }

    /** Every component holds the references the firmware's set-up gives it. */
    ghost predicate Wired()
    {
      && locoNetPort.stream == stream
      && sendScheduler.port == locoNetPort && sendScheduler.clock == clock
      && decoder.pendingAcks == pendingAcks
      && messageRouter.port == locoNetPort && messageRouter.mqttPort == mqttPort && messageRouter.clock == clock
      && messageRouter.log == messageLog && messageRouter.decoder == decoder
      && statusPublisher.stream == stream && statusPublisher.mqttPort == mqttPort && statusPublisher.clock == clock
      && startupQuery.stream == stream && startupQuery.scheduler == sendScheduler
      && startupQuery.pendingAcks == pendingAcks && startupQuery.clock == clock
      && commandRouter.mqttPort == mqttPort && commandRouter.scheduler == sendScheduler
    }

    ghost predicate Matches(w: World)
      reads Repr()
    {
      && w.clock <= clock.now
      && sendScheduler.pending == w.pending
      && startupQuery.State() == w.query
      && decoder.lastKnownPosition == w.decoder.table && pendingAcks.pendingAddresses == w.decoder.fifo
      && messageRouter.lastRepublishAtMilliseconds == w.lastRepublishAt
      && statusPublisher.State() == w.status
      && locoNetPort.sent == SentFrames(w.sent)
      && messageLog.recorded == w.logged
      && mqttPort.published == w.published
    }

    /** The frames logged and those in the lines not yet read are all the frames in the bytes received. */
    ghost predicate EveryLineCounts()
      reads messageLog, stream`incoming, stream`received
    {
      messageLog.recorded + Decodables(stream.incoming) == Decodables(LinesOf(stream.received))
    }

    /** The layout l is around this bridge: the lines received and not yet read are the oldest of the
        lines in flight, and everything is in step. */
    ghost predicate Beside(l: Layout)
      reads this, stream`incoming
    {
      InStep(l) && l.bridge == RunFrom(START_UP, trace) && stream.incoming <= Texts(l.inFlight)
    }

    /** The objects hold w, and every line received is accounted for. */
    ghost predicate Fits(w: World)
      reads Repr()
    {
      Wired() && locoNetPort.Valid() && stream.Valid() && Matches(w) && EveryLineCounts()
    }

    ghost predicate Valid()
      reads Repr()
    {
      IsRun(START_UP, trace) && Fits(RunFrom(START_UP, trace))
    }

    static method NewSendingSide() returns (clock: Clock, stream: SocketLineStream, port: LocoNetOverTcpPort,
                                            scheduler: PendingLocoNetSendScheduler)
      ensures fresh(stream.assembler) && stream.Valid() && stream.received == "" && stream.incoming == []
      ensures port.stream == stream && port.Valid() && port.sent == []
      ensures scheduler.port == port && scheduler.clock == clock && scheduler.pending == []
    {
      clock := new Clock();
      stream := new SocketLineStream();
      port := new LocoNetOverTcpPort(stream);
      scheduler := new PendingLocoNetSendScheduler(port, clock);
    }

    static method NewDecoder() returns (acks: PendingTurnoutStateAcks, decoder: TurnoutLocoNetDecoder)
      ensures acks.pendingAddresses == []
      ensures decoder.pendingAcks == acks && decoder.lastKnownPosition == map[]
    {
      acks := new PendingTurnoutStateAcks();
      decoder := new TurnoutLocoNetDecoder(acks);
    }

    constructor ()
      ensures Valid() && trace == [] && stream.received == "" && stream.incoming == []
    {
      var c, line, port, scheduler := NewSendingSide();
      var acks, turnouts := NewDecoder();
      var broker := new MqttPort();
      var log := new MessageLog();
      messageRouter := new LocoNetMessageRouter(port, broker, c, log, turnouts);
      statusPublisher := new JmriConnectionStatusPublisher(line, broker, c);
      startupQuery := new TurnoutTableStartupQuery(line, scheduler, acks, c);
      commandRouter := new MqttCommandRouter(broker, scheduler);
      clock, stream, mqttPort, messageLog := c, line, broker, log;
      locoNetPort, sendScheduler, pendingAcks, decoder := port, scheduler, acks, turnouts;
      trace := [];
      new;
      StartUpHolds();
    }

    method TickScheduler(ghost w: World) returns (ghost now: nat)
      requires Fits(w)
      modifies clock, sendScheduler, locoNetPort, stream`written
      ensures Enabled(w, RunScheduler(now)) && Fits(Next(w, RunScheduler(now)))
    {
      now := sendScheduler.Update();
      SentFramesOfScan(w.sent, Due(w.pending, now), now);
    }

    method TickRouter(ghost w: World) returns (ghost check: Check)
      requires Fits(w)
      modifies clock, stream`available, stream`incoming, stream.assembler
      modifies mqttPort`published, messageLog, decoder, pendingAcks, messageRouter
      ensures stream.incoming == []
      ensures var received := Received(w, Decodables(old(stream.incoming)));
              Enabled(received, CheckRepublish(check)) && Fits(Next(received, CheckRepublish(check)))
    {
      ReceivedFields(w, Decodables(stream.incoming));
      check := messageRouter.Update();
      CheckReadings(old(clock.now), w.clock, check, clock.now);
    }

    method TickStatus(ghost w: World) returns (ghost r: StatusReading)
      requires Fits(w)
      modifies clock, mqttPort`published, statusPublisher
      ensures Enabled(w, CheckStatus(r)) && Fits(Next(w, CheckStatus(r)))
    {
      r := statusPublisher.Update();
      StatusReadings(old(clock.now), w.clock, r, clock.now);
    }

    method TickQuery(ghost w: World) returns (ghost r: TableQuery.Reading, ghost sendAt: seq<nat>)
      requires Fits(w)
      modifies clock, pendingAcks, sendScheduler, startupQuery
      ensures Enabled(w, CheckQuery(r, sendAt)) && Fits(Next(w, CheckQuery(r, sendAt)))
    {
      r, sendAt := startupQuery.Update();
      QueryReadings(old(clock.now), w.clock, r, sendAt);
    }

    method TickCommands(ghost w: World) returns (ghost at: seq<nat>)
      requires Fits(w)
      modifies clock, mqttPort`commands, sendScheduler, locoNetPort, stream`written
      ensures mqttPort.commands == []
      ensures |at| == |old(mqttPort.commands)| && Time.Ascending([w.clock] + at)
      ensures Fits(Commanded(w, old(mqttPort.commands), at))
    {
      ghost var messages := mqttPort.commands;
      at := commandRouter.Update();
      LowerFirst(old(clock.now), w.clock, at);
      CommandsRun(w, messages, at);
      CommandedFields(w, messages, at);
    }

    /** One tick in normal mode is the stretch of run its calls make, in their order: scheduler, every
        buffered line and the republish check, status, query, every queued command. So after any number
        of ticks, on the objects themselves: the frames logged are exactly those in the bytes received;
        every line written reads back to the frame sent, a well-formed message of the bus;
        what a subscriber has been sent mirrors the decoder's table; the delayed list still holds exactly
        the expected requests that have not left; and the OFF pulses waiting are those of the latest
        commands. */
    method Loop() returns (ghost tick: Tick)
      requires Valid()
      modifies Repr()
      ensures Valid() && stream.incoming == [] && mqttPort.commands == [] && stream.received == old(stream.received)
      ensures tick.frames == Decodables(old(stream.incoming)) && tick.messages == old(mqttPort.commands)
      ensures |tick.at| == |tick.messages| && trace == old(trace) + StepsOf(tick)
      ensures messageLog.recorded == Decodables(LinesOf(stream.received))
      ensures forall items | AllOneLine(items) && stream.received == Transmit(items) ::
                messageLog.recorded == Expected(items)
      ensures LinesCarry(stream.written, RunFrom(START_UP, trace).sent)
      ensures Mirrors(Replay(mqttPort.published), decoder.lastKnownPosition)
      ensures AllRetained(mqttPort.published) && Mirrors(Retained(mqttPort.published), decoder.lastKnownPosition)
      ensures var w := RunFrom(START_UP, trace);
              && RequestedAddresses(ReleasedSends(w.sent)) + RequestedAddresses(sendScheduler.pending) == w.expected
              && w.claimed + pendingAcks.pendingAddresses == w.expected
              && |OffReleases(w.sent)| <= |w.commands|
              && Only(sendScheduler.pending, IsOffPulse) == OffSends(w.commands[|OffReleases(w.sent)|..])
    {
      tick := RunCalls();
      forall items | AllOneLine(items) && stream.received == Transmit(items)
        ensures messageLog.recorded == Expected(items)
      {
        TransmissionIsDelivered(items);
      }
      WhatRunsKeep(trace);
      SentLinesCarry(trace);
    }

    /** Beside an in-order, lossless station every tick leaves the table at exactly what the lines read
        so far truly reported, and the queue at the answers in flight, the requests owed and those unsent;
        the layout it leaves is the one its calls and reads lead to. */
    method LoopBesideStation(ghost before: Layout) returns (ghost tick: Tick, ghost after: Layout)
      requires Valid() && Beside(before)
      modifies Repr()
      ensures Valid() && Beside(after) && stream.incoming == []
      ensures |tick.at| == |tick.messages| && Leads(before, TickEvents(tick, |old(stream.incoming)|), after)
      ensures decoder.lastKnownPosition == after.told
      ensures pendingAcks.pendingAddresses
              == AnswersInFlight(after.inFlight) + after.unanswered + RequestedAddresses(sendScheduler.pending)
    {
      ghost var earlier, n := trace, |stream.incoming|;
      TextsOfPrefix(before.inFlight, stream.incoming);
      tick := Loop();
      RunParts(START_UP, earlier, StepsOf(tick));
      after := TickLeads(before, tick, n);
      HistoryKeepsStep(before, TickEvents(tick, n));
    }

    /** At start-up the quiet layout is around the bridge, and what the station does between ticks keeps
        its layout around the bridge. */
    lemma QuietIsBeside()
      requires trace == [] && stream.incoming == []
      ensures Beside(QUIET)
    {
      QuietIsInStep();
    }

    lemma StationKeepsBeside(l: Layout, e: Event)
      requires Beside(l) && Possible(l, e) && (e.Answer? || e.Traffic?)
      ensures Beside(After(l, e))
    {
      EventKeepsStep(l, e);
      var more := After(l, e).inFlight;
      assert Texts(more)[..|l.inFlight|] == Texts(l.inFlight);
    }

    method Hear(bytes: string)
      requires Valid()
      modifies stream`available, stream`received, stream`incoming
      ensures Valid() && stream.received == old(stream.received) + bytes
      ensures stream.incoming == old(stream.incoming) + NewLines(old(stream.received), bytes)
    {
      DecodablesAppend(stream.incoming, NewLines(stream.received, bytes));
      DecodablesAppend(LinesOf(stream.received), NewLines(stream.received, bytes));
      Regroup(messageLog.recorded, Decodables(stream.incoming), Decodables(NewLines(stream.received, bytes)));
      stream.Arrive(bytes);
    }

    /** The calls of one tick, on any world the objects hold: first those that let frames out and in ... */
    method ExchangeFrames(ghost w: World) returns (ghost now: nat, ghost check: Check, ghost w': World)
      requires Fits(w)
      modifies clock, sendScheduler, locoNetPort, stream, stream.assembler
      modifies mqttPort`published, messageLog, decoder, pendingAcks, messageRouter
      ensures stream.incoming == [] && stream.received == old(stream.received)
      ensures Fits(w') && Exchanged(w, now, Decodables(old(stream.incoming)), check, w')
    {
      now := TickScheduler(w);
      check := TickRouter(Next(w, RunScheduler(now)));
      w' := Next(Received(Next(w, RunScheduler(now)), Decodables(old(stream.incoming))), CheckRepublish(check));
    }

    /** ... then those that report, ask and command. */
    method ReportAndAct(ghost w: World) returns (ghost r: StatusReading, ghost reading: TableQuery.Reading,
                                                 ghost sendAt: seq<nat>, ghost at: seq<nat>, ghost w': World)
      requires Fits(w)
      modifies clock, mqttPort, statusPublisher, pendingAcks, sendScheduler, startupQuery, locoNetPort, stream`written
      ensures mqttPort.commands == [] && |at| == |old(mqttPort.commands)|
      ensures Fits(w') && Acted(w, r, reading, sendAt, old(mqttPort.commands), at, w')
    {
      r := TickStatus(w);
      ghost var reported := Next(w, CheckStatus(r));
      reading, sendAt := TickQuery(reported);
      ghost var asked := Next(reported, CheckQuery(reading, sendAt));
      at := TickCommands(asked);
      w' := Commanded(asked, old(mqttPort.commands), at);
    }

    method MakeCalls(ghost w: World) returns (ghost tick: Tick, ghost w': World)
      requires Fits(w)
      modifies Repr() - {this}
      ensures stream.incoming == [] && mqttPort.commands == [] && stream.received == old(stream.received)
      ensures tick.frames == Decodables(old(stream.incoming)) && tick.messages == old(mqttPort.commands)
      ensures |tick.at| == |tick.messages|
      ensures IsRun(w, StepsOf(tick)) && w' == RunFrom(w, StepsOf(tick)) && Fits(w')
    {
      ghost var frames, messages := Decodables(stream.incoming), mqttPort.commands;
      ghost var now, check, w1 := ExchangeFrames(w);
      ghost var r, reading, sendAt, at;
      r, reading, sendAt, at, w' := ReportAndAct(w1);
      tick := Tick(now, frames, check, r, reading, sendAt, messages, at);
      TickRuns(w, tick, w1, w');
    }

    method RunCalls() returns (ghost tick: Tick)
      requires Valid()
      modifies Repr()
      ensures Valid() && stream.incoming == [] && mqttPort.commands == [] && stream.received == old(stream.received)
      ensures tick.frames == Decodables(old(stream.incoming)) && tick.messages == old(mqttPort.commands)
      ensures |tick.at| == |tick.messages| && trace == old(trace) + StepsOf(tick)
    {
      ghost var w;
      tick, w := MakeCalls(RunFrom(START_UP, trace));
      RunAppend(START_UP, trace, StepsOf(tick));
      trace := trace + StepsOf(tick);
    }
  }

  lemma CheckReadings(first: nat, lower: nat, c: Check, last: nat)
    requires lower <= first && Time.Ascending([first, c.readAt, c.stampAt, last])
    ensures Time.Ascending([lower] + [c.readAt, c.stampAt]) && c.stampAt <= last
  {
    var readings := [first, c.readAt, c.stampAt, last];
    assert readings[0] <= readings[1] <= readings[2] <= readings[3];
  }

  lemma StatusReadings(first: nat, lower: nat, r: StatusReading, last: nat)
    requires lower <= first && Time.Ascending([first, r.changeAt, r.readAt, r.dueAt, last])
    ensures Time.Ascending([lower] + [r.changeAt, r.readAt, r.dueAt]) && r.dueAt <= last
  {
    var readings := [first, r.changeAt, r.readAt, r.dueAt, last];
    assert readings[0] <= readings[1] <= readings[2] <= readings[3] <= readings[4];
  }

  lemma QueryReadings(first: nat, lower: nat, r: TableQuery.Reading, sendAt: seq<nat>)
    requires lower <= first && Time.Ascending([first, r.sinceAt, r.readyAt] + sendAt)
    ensures Time.Ascending([lower] + ([r.sinceAt, r.readyAt] + sendAt))
  {
    assert [first, r.sinceAt, r.readyAt] + sendAt == [first] + ([r.sinceAt, r.readyAt] + sendAt);
    LowerFirst(first, lower, [r.sinceAt, r.readyAt] + sendAt);
  }

  lemma StartUpHolds()
    ensures IsRun(START_UP, []) && RunFrom(START_UP, []) == START_UP
    ensures SentFrames(START_UP.sent) == [] && SendLines([]) == [] && Decodables(LinesOf("")) == []
  {
  }

  ghost predicate Exchanged(w: World, now: nat, frames: seq<Frame>, check: Check, w': World)
  {
    && Enabled(w, RunScheduler(now))
    && Enabled(Received(Next(w, RunScheduler(now)), frames), CheckRepublish(check))
    && w' == Next(Received(Next(w, RunScheduler(now)), frames), CheckRepublish(check))
  }

  ghost predicate Acted(w: World, r: StatusReading, reading: TableQuery.Reading, sendAt: seq<nat>,
                        messages: seq<IncomingMqttMessage>, at: seq<nat>, w': World)
    requires |at| == |messages|
  {
    var reported := Next(w, CheckStatus(r));
    var asked := Next(reported, CheckQuery(reading, sendAt));
    && Enabled(w, CheckStatus(r)) && Enabled(reported, CheckQuery(reading, sendAt))
    && Time.Ascending([asked.clock] + at) && w' == Commanded(asked, messages, at)
  }

  lemma ExchangeRuns(w: World, now: nat, frames: seq<Frame>, check: Check, w': World)
    requires Exchanged(w, now, frames, check, w')
    ensures var steps := [RunScheduler(now)] + (Receives(frames) + [CheckRepublish(check)]);
            IsRun(w, steps) && RunFrom(w, steps) == w'
  {
    var sent := Next(w, RunScheduler(now));
    OneStep(w, RunScheduler(now));
    ReceivesRun(sent, frames);
    RunSnoc(sent, Receives(frames), CheckRepublish(check));
    RunAppend(w, [RunScheduler(now)], Receives(frames) + [CheckRepublish(check)]);
  }

  lemma ActionsRun(w: World, r: StatusReading, reading: TableQuery.Reading, sendAt: seq<nat>,
                   messages: seq<IncomingMqttMessage>, at: seq<nat>, w': World)
    requires |at| == |messages| && Acted(w, r, reading, sendAt, messages, at, w')
    ensures var steps := [CheckStatus(r)] + [CheckQuery(reading, sendAt)] + Commands(messages, at);
            IsRun(w, steps) && RunFrom(w, steps) == w'
  {
    OneStep(w, CheckStatus(r));
    RunSnoc(w, [CheckStatus(r)], CheckQuery(reading, sendAt));
    CommandsRun(Next(Next(w, CheckStatus(r)), CheckQuery(reading, sendAt)), messages, at);
    RunAppend(w, [CheckStatus(r)] + [CheckQuery(reading, sendAt)], Commands(messages, at));
  }

  /** The two halves of a tick, put together. */
  lemma TickRuns(w: World, tick: Tick, w1: World, w2: World)
    requires |tick.at| == |tick.messages|
    requires Exchanged(w, tick.now, tick.frames, tick.check, w1)
    requires Acted(w1, tick.status, tick.reading, tick.sendAt, tick.messages, tick.at, w2)
    ensures IsRun(w, StepsOf(tick)) && RunFrom(w, StepsOf(tick)) == w2
  {
    ExchangeRuns(w, tick.now, tick.frames, tick.check, w1);
    ActionsRun(w1, tick.status, tick.reading, tick.sendAt, tick.messages, tick.at, w2);
    RunAppend(w, [RunScheduler(tick.now)] + (Receives(tick.frames) + [CheckRepublish(tick.check)]),
              [CheckStatus(tick.status)] + [CheckQuery(tick.reading, tick.sendAt)] + Commands(tick.messages, tick.at));
    StepsByHalf(tick);
  }

  lemma StepsByHalf(tick: Tick)
    requires |tick.at| == |tick.messages|
    ensures StepsOf(tick)
            == ([RunScheduler(tick.now)] + (Receives(tick.frames) + [CheckRepublish(tick.check)]))
               + ([CheckStatus(tick.status)] + [CheckQuery(tick.reading, tick.sendAt)]
                  + Commands(tick.messages, tick.at))
  {
  }

  lemma TextsOfPrefix(lines: seq<Line>, texts: seq<string>)
    requires texts <= Texts(lines)
    ensures |texts| <= |lines| && Texts(lines[..|texts|]) == texts
  {
  }

  /** Line by line, what is written carries the frames sent, all well-formed on the bus. */
  predicate LinesCarry(written: seq<string>, sent: seq<Departure>)
  {
    && |written| == |sent|
    && forall i | 0 <= i < |sent| ::
         Codec.ReadSend(written[i]) == Some(sent[i].Message()) && IsBusFrame(sent[i].Message())
  }

  lemma SentLinesCarry(trace: seq<Step>)
    requires IsRun(START_UP, trace)
    ensures LinesCarry(SendLines(SentFrames(RunFrom(START_UP, trace).sent)), RunFrom(START_UP, trace).sent)
  {
    EverySentFrameIsWellFormed(trace);
    var sent := RunFrom(START_UP, trace).sent;
    forall i | 0 <= i < |sent|
      ensures Codec.ReadSend(SendLines(SentFrames(sent))[i]) == Some(sent[i].Message())
      ensures IsBusFrame(sent[i].Message())
    {
      assert sent[i] in sent;
      Codec.SendCarriesFrame(sent[i].Message());
    }
  }

  lemma WhatRunsKeep(trace: seq<Step>)
    requires IsRun(START_UP, trace)
    ensures var w := RunFrom(START_UP, trace);
            && Mirrors(Replay(w.published), w.decoder.table)
            && AllRetained(w.published) && Mirrors(Retained(w.published), w.decoder.table)
            && RequestedAddresses(ReleasedSends(w.sent)) + RequestedAddresses(w.pending) == w.expected
            && w.claimed + w.decoder.fifo == w.expected
            && |OffReleases(w.sent)| <= |w.commands|
            && Only(w.pending, IsOffPulse) == OffSends(w.commands[|OffReleases(w.sent)|..])
  {
    Publication.WholeLogMirrorsTable(trace);
    Publication.RetainedStoreMirrorsTable(trace);
    RequestsMatchExpectations(trace);
    RunKeepsQueue(START_UP, trace);
    OffPulsesFollowOnPulses(trace);
  }

  lemma LowerFirst(first: nat, lower: nat, readings: seq<nat>)
    requires lower <= first && Time.Ascending([first] + readings)
    ensures Time.Ascending([lower] + readings)
  {
    var a, b := [first] + readings, [lower] + readings;
    forall i, j | 0 <= i < j < |b| ensures b[i] <= b[j] {
      assert a[i] <= a[j] && b[j] == a[j];
    }
  }
}
