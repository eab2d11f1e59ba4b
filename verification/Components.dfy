/** The classes of the bridge, each proved against the step functions of the protocol. */
module Components {
  import opened Basics
  import opened LocoNet
  import Codec
  import opened LineFraming
  import opened Time
  import opened Scheduler
  import opened TurnoutDecoder
  import opened Mqtt
  import opened Timers
  import opened TableQuery
  import Bridge
  import opened Ports

  // ------------------------------------------------------- LocoNet over TCP

  function SendLines(frames: seq<Frame>): seq<string>
  {
    seq(|frames|, i requires 0 <= i < |frames| => Codec.EncodeSend(frames[i]))
  }

  class LocoNetOverTcpPort {
    const stream: SocketLineStream
    ghost var sent: seq<Frame>

    ghost predicate Valid()
      reads this, stream`written
    {
      stream.written == SendLines(sent)
    }

    constructor (stream: SocketLineStream)
      requires stream.written == []
      ensures Valid() && this.stream == stream && sent == []
    {
      this.stream := stream;
      sent := [];
    }

    method Send(message: Frame)
      requires Valid()
      modifies this, stream`written
      ensures Valid() && sent == old(sent) + [message]
    {
      stream.WriteLine(Codec.EncodeSend(message));
      sent := sent + [message];
    }

    /** The first line that decodes, skipping those before it; none when no line is left. */
    method Receive() returns (message: Option<Frame>)
      requires stream.Valid()
      modifies stream`available, stream`incoming, stream.assembler
      ensures stream.Valid()
      ensures message.None? ==> stream.incoming == [] && Decodables(old(stream.incoming)) == []
      ensures message.Some? ==>
                && |stream.incoming| < |old(stream.incoming)|
                && Decodables(old(stream.incoming)) == [message.value] + Decodables(stream.incoming)
      decreases |stream.incoming|, 0
    {
      var line := stream.ReadLine();
      if line.Some? {
        message := DecodeNextMessage(line.value);
      } else {
        message := None;
      }
    }

    method DecodeNextMessage(line: string) returns (message: Option<Frame>)
      requires stream.Valid()
      modifies stream`available, stream`incoming, stream.assembler
      ensures stream.Valid()
      ensures message.None? ==> stream.incoming == [] && Decodables([line] + old(stream.incoming)) == []
      ensures message.Some? ==>
                && |stream.incoming| <= |old(stream.incoming)|
                && Decodables([line] + old(stream.incoming)) == [message.value] + Decodables(stream.incoming)
      decreases |stream.incoming|, 1
    {
      assert ([line] + stream.incoming)[1..] == stream.incoming;
      message := Codec.DecodeLine(line);
      if message.None? {
        message := Receive();
      }
    }
  }

  // ------------------------------------------------------------- scheduler

  class PendingLocoNetSendScheduler {
    const port: LocoNetOverTcpPort
    const clock: Clock
    var pending: seq<PendingSend>

    constructor (port: LocoNetOverTcpPort, clock: Clock)
      ensures this.port == port && this.clock == clock && pending == []
    {
      this.port, this.clock := port, clock;
      pending := [];
    }

    method SendNow(message: Frame)
      requires port.Valid()
      modifies port, port.stream`written
      ensures port.Valid() && port.sent == old(port.sent) + [message]
    {
      port.Send(message);
    }

    method SendAfter(message: Frame, delayMilliseconds: nat) returns (ghost at: nat)
      modifies this, clock
      ensures old(clock.now) <= clock.now == at
      ensures pending == old(pending) + [PendingSend(message, at + delayMilliseconds)]
    {
      var now := clock.NowMilliseconds();
      at := now;
      pending := pending + [PendingSend(message, now + delayMilliseconds)];
    }

    method Update() returns (ghost at: nat)
      requires port.Valid()
      modifies this, clock, port, port.stream`written
      ensures old(clock.now) <= clock.now == at
      ensures port.Valid() && pending == Kept(old(pending), at)
      ensures port.sent == old(port.sent) + Messages(Due(old(pending), at))
    {
      var now := clock.NowMilliseconds();
      at := now;
      ghost var all, sentBefore := pending, port.sent;
      ghost var seen, kept, released: seq<PendingSend> := 0, [], [];
      var it := 0;
      ScanStarts(all, now);
      while it < |pending|
        invariant Scanning(all, now, seen, it, pending, kept, released)
        invariant port.Valid() && port.sent == sentBefore + Messages(released)
        invariant old(clock.now) <= clock.now == at == now
        decreases |all| - seen
      {
        ScanLooks(all, now, seen, it, pending, kept, released);
        ghost var x := all[seen];
        seen := seen + 1;
        if pending[it].dueAt > now {
          kept := kept + [x];
          it := it + 1;
          continue;
        }
        MessagesSnoc(released, x);
        released := released + [x];
        port.Send(pending[it].message);
        pending := pending[..it] + pending[it + 1..];
      }
      ScanEnds(all, now, seen, it, pending, kept, released);
    }
  }

  // ----------------------------------------------------- correlation queue

  class PendingTurnoutStateAcks {
    var pendingAddresses: seq<int>

    constructor ()
      ensures pendingAddresses == []
    {
      pendingAddresses := [];
    }

    method Expect(address: int)
      modifies this
      ensures pendingAddresses == old(pendingAddresses) + [address]
    {
      pendingAddresses := pendingAddresses + [address];
    }

    method ClaimNext() returns (address: Option<int>)
      modifies this
      ensures old(pendingAddresses) == [] ==> address == None && pendingAddresses == []
      ensures old(pendingAddresses) != [] ==>
                address == Some(old(pendingAddresses)[0]) && pendingAddresses == old(pendingAddresses)[1..]
    {
      if pendingAddresses == [] {
        return None;
      }
      address := Some(pendingAddresses[0]);
      pendingAddresses := pendingAddresses[1..];
    }
  }

  // --------------------------------------------------------------- decoder

  class TurnoutLocoNetDecoder {
    const pendingAcks: PendingTurnoutStateAcks
    var lastKnownPosition: map<int, Position>

    function State(): Decoder
      reads this, pendingAcks
    {
      Decoder(lastKnownPosition, pendingAcks.pendingAddresses)
    }

    constructor (pendingAcks: PendingTurnoutStateAcks)
      ensures this.pendingAcks == pendingAcks && lastKnownPosition == map[]
    {
      this.pendingAcks := pendingAcks;
      lastKnownPosition := map[];
    }

    method ShouldEmitPositionChange(address: int, position: Position) returns (changed: bool)
      modifies this
      ensures changed == !Known(old(lastKnownPosition), Turnout(address, position))
      ensures lastKnownPosition == old(lastKnownPosition)[address := position]
    {
      if address in lastKnownPosition && lastKnownPosition[address] == position {
        return false;
      }
      lastKnownPosition := lastKnownPosition[address := position];
      return true;
    }

    method EmitIfChanged(address: int, position: Position) returns (event: Option<Turnout>)
      modifies this
      ensures event == if Known(old(lastKnownPosition), Turnout(address, position)) then None
                       else Some(Turnout(address, position))
      ensures lastKnownPosition == old(lastKnownPosition)[address := position]
    {
      var changed := ShouldEmitPositionChange(address, position);
      return if changed then Some(Turnout(address, position)) else None;
    }

    method DecodeSwitchMessage(message: Frame) returns (event: Option<Turnout>)
      requires |message| >= 4 && CanDecode(message[0]) && message[0] != OPC_LONG_ACK
      modifies this
      ensures event == Emission(old(State()), message) && State() == Handle(old(State()), message)
    {
      if IsSensorReport(message) {
        return None;
      }
      event := EmitIfChanged(AddressFrom(message), PositionFrom(message));
    }

    method DecodeStateAck(message: Frame) returns (event: Option<Turnout>)
      requires |message| >= 4 && message[0] == OPC_LONG_ACK
      modifies this, pendingAcks
      ensures event == Emission(old(State()), message) && State() == Handle(old(State()), message)
    {
      if message[1] != SWITCH_STATE_ACK_CODE {
        return None;
      }
      var address := pendingAcks.ClaimNext();
      if address.None? {
        return None;
      }
      event := EmitIfChanged(address.value, PositionFrom(message));
    }

    method Decode(message: Frame) returns (event: Option<Turnout>)
      requires |message| >= 4 && CanDecode(message[0])
      modifies this, pendingAcks
      ensures event == Emission(old(State()), message) && State() == Handle(old(State()), message)
    {
      if message[0] == OPC_LONG_ACK {
        event := DecodeStateAck(message);
      } else {
        event := DecodeSwitchMessage(message);
      }
    }

    method NextKey(keys: set<int>) returns (least: int)
      requires keys != {}
      ensures least in keys && forall k | k in keys :: least <= k
    {
      HasLeast(keys);
      least :| least in keys && forall k | k in keys :: least <= k;
    }

    /** Walks the map in key order. */
    method AllKnownStates() returns (states: seq<Turnout>)
      ensures states == KnownStates(lastKnownPosition)
    {
      states := [];
      var rest := lastKnownPosition.Keys;
      ghost var done: seq<int> := [];
      WalkStart(lastKnownPosition);
      while rest != {}
        invariant Walked(lastKnownPosition, done, rest, states)
        decreases rest
      {
        var address := NextKey(rest);
        WalkStep(lastKnownPosition, done, rest, states, address);
        done := done + [address];
        states, rest := states + [Turnout(address, lastKnownPosition[address])], rest - {address};
      }
      WalkDone(lastKnownPosition, done, states);
    }
  }

  // ---------------------------------------------------------------- router

  class LocoNetMessageRouter {
    const port: LocoNetOverTcpPort
    const mqttPort: MqttPort
    const clock: Clock
    const log: MessageLog
    const decoder: TurnoutLocoNetDecoder
    var lastRepublishAtMilliseconds: nat

    constructor (port: LocoNetOverTcpPort, mqttPort: MqttPort, clock: Clock, log: MessageLog,
                 decoder: TurnoutLocoNetDecoder)
      ensures this.port == port && this.mqttPort == mqttPort && this.clock == clock && this.log == log
      ensures this.decoder == decoder && lastRepublishAtMilliseconds == 0
    {
      this.port, this.mqttPort, this.clock, this.log, this.decoder := port, mqttPort, clock, log, decoder;
      lastRepublishAtMilliseconds := 0;
    }

    method HandleMessage(message: Frame)
      modifies mqttPort`published, log, decoder, decoder.pendingAcks
      ensures decoder.State() == Handle(old(decoder.State()), message)
      ensures log.recorded == old(log.recorded) + [message]
      ensures mqttPort.published
              == old(mqttPort.published) + EncodeStates(Emissions(old(decoder.State()), [message]))
    {
      log.Record(message);
      if |message| < 4 {
        return;
      }
      if !CanDecode(message[0]) {
        return;
      }
      var event := decoder.Decode(message);
      if event.Some? {
        mqttPort.Publish(EncodeState(event.value));
      }
    }

    method RepublishAllKnownStatesIfDue() returns (ghost check: Check)
      modifies this, clock, mqttPort`published
      ensures Time.Ascending([old(clock.now), check.readAt, check.stampAt, clock.now])
      ensures lastRepublishAtMilliseconds == RepublishNext(old(lastRepublishAtMilliseconds), check, Bits32)
      ensures mqttPort.published
              == old(mqttPort.published)
                 + if RepublishDue(old(lastRepublishAtMilliseconds), check, Bits32)
                   then EncodeStates(KnownStates(decoder.lastKnownPosition)) else []
    {
      var now := clock.NowMilliseconds();
      check := Check(now, now);
      if Elapsed(now, lastRepublishAtMilliseconds, Bits32) < STATE_REPUBLISH_INTERVAL_MS {
        return;
      }
      lastRepublishAtMilliseconds := clock.NowMilliseconds();
      check := Check(now, lastRepublishAtMilliseconds);
      var states := decoder.AllKnownStates();
      for i := 0 to |states|
        invariant mqttPort.published == old(mqttPort.published) + EncodeStates(states[..i])
        invariant clock.now == check.stampAt == lastRepublishAtMilliseconds
      {
        PublishNext(old(mqttPort.published), states, i);
        mqttPort.Publish(EncodeState(states[i]));
      }
      assert states[..|states|] == states;
    }

    /** Reads every buffered line, logs exactly the decodable ones in order, and publishes the events
        they give; then republishes if that is due. */
    method Update() returns (ghost check: Check)
      requires port.stream.Valid()
      modifies this, clock, port.stream`available, port.stream`incoming, port.stream.assembler
      modifies mqttPort`published, log, decoder, decoder.pendingAcks
      ensures port.stream.Valid() && port.stream.incoming == []
      ensures log.recorded == old(log.recorded) + Decodables(old(port.stream.incoming))
      ensures decoder.State() == HandleAll(old(decoder.State()), Decodables(old(port.stream.incoming)))
      ensures Time.Ascending([old(clock.now), check.readAt, check.stampAt, clock.now])
      ensures lastRepublishAtMilliseconds == RepublishNext(old(lastRepublishAtMilliseconds), check, Bits32)
      ensures mqttPort.published
              == old(mqttPort.published)
                 + EncodeStates(Emissions(old(decoder.State()), Decodables(old(port.stream.incoming))))
                 + if RepublishDue(old(lastRepublishAtMilliseconds), check, Bits32)
                   then EncodeStates(KnownStates(decoder.lastKnownPosition)) else []
    {
      ghost var frames := Decodables(port.stream.incoming);
      ghost var start := decoder.State();
      ghost var done: seq<Frame> := [];
      var message := port.Receive();
      while message.Some?
        invariant Drained(start, frames, done,
                          if message.Some? then [message.value] + Decodables(port.stream.incoming) else [],
                          old(log.recorded), log.recorded, old(mqttPort.published), mqttPort.published, decoder.State())
        invariant port.stream.Valid() && (message.None? ==> port.stream.incoming == [])
        invariant lastRepublishAtMilliseconds == old(lastRepublishAtMilliseconds) && clock.now == old(clock.now)
        decreases |port.stream.incoming|, message.Some?
      {
        ghost var recorded, published := log.recorded, mqttPort.published;
        DrainNext(start, frames, done, message.value, Decodables(port.stream.incoming),
                  old(log.recorded), recorded, old(mqttPort.published), published, decoder.State());
        HandleMessage(message.value);
        done := done + [message.value];
        message := port.Receive();
      }
      DrainDone(start, frames, done, old(log.recorded), log.recorded, old(mqttPort.published), mqttPort.published,
                decoder.State());
      check := RepublishAllKnownStatesIfDue();
    }
  }

  /** Part way through the buffered frames: `done` are handled, `rest` are still to come. */
  predicate Drained(start: Decoder, all: seq<Frame>, done: seq<Frame>, rest: seq<Frame>, log: seq<Frame>,
                    log': seq<Frame>, published: seq<MqttMessage>, published': seq<MqttMessage>, d: Decoder)
  {
    && all == done + rest && log' == log + done && d == HandleAll(start, done)
    && published' == published + EncodeStates(Emissions(start, done))
  }

  lemma DrainNext(start: Decoder, all: seq<Frame>, done: seq<Frame>, m: Frame, rest: seq<Frame>, log: seq<Frame>,
                  log': seq<Frame>, published: seq<MqttMessage>, published': seq<MqttMessage>, d: Decoder)
    requires Drained(start, all, done, [m] + rest, log, log', published, published', d)
    ensures Drained(start, all, done + [m], rest, log, log' + [m], published,
                    published' + EncodeStates(Emissions(d, [m])), Handle(d, m))
  {
    HandleAllSnoc(start, done, m);
    EmissionsSnoc(start, done, m);
    EncodeStatesAppend(Emissions(start, done), Emissions(d, [m]));
    Regroup(done, [m], rest);
    Regroup(log, done, [m]);
    Regroup(published, EncodeStates(Emissions(start, done)), EncodeStates(Emissions(d, [m])));
  }

  lemma DrainDone(start: Decoder, all: seq<Frame>, done: seq<Frame>, log: seq<Frame>, log': seq<Frame>,
                  published: seq<MqttMessage>, published': seq<MqttMessage>, d: Decoder)
    requires Drained(start, all, done, [], log, log', published, published', d)
    ensures log' == log + all && d == HandleAll(start, all)
    ensures published' == published + EncodeStates(Emissions(start, all))
  {
    assert done + [] == done;
  }

  // ------------------------------------------------------- start-up query

  class TurnoutTableStartupQuery {
    const stream: SocketLineStream
    const scheduler: PendingLocoNetSendScheduler
    const pendingAcks: PendingTurnoutStateAcks
    const clock: Clock
    var connectedSinceMilliseconds: Option<nat>
    var queriedThisConnection: bool

    function State(): Query
      reads this
    {
      Query(connectedSinceMilliseconds, queriedThisConnection)
    }

    constructor (stream: SocketLineStream, scheduler: PendingLocoNetSendScheduler, pendingAcks: PendingTurnoutStateAcks,
                 clock: Clock)
      ensures this.stream == stream && this.scheduler == scheduler && this.pendingAcks == pendingAcks
      ensures this.clock == clock && State() == QUERY_START
    {
      this.stream, this.scheduler, this.pendingAcks, this.clock := stream, scheduler, pendingAcks, clock;
      connectedSinceMilliseconds, queriedThisConnection := None, false;
    }

    method ResetForNextConnection()
      modifies this
      ensures State() == QUERY_START
    {
      connectedSinceMilliseconds := None;
      queriedThisConnection := false;
    }

    method ReadyToQuery() returns (ready: bool, ghost r: Reading)
      modifies this, clock
      ensures r.connected && old(clock.now) <= r.sinceAt <= r.readyAt == clock.now
      ensures ready == Fires(old(State()), r, Bits32)
      ensures State() == Query(Some(Since(old(State()), r)), old(queriedThisConnection))
    {
      r := Reading(true, clock.now, clock.now);
      if connectedSinceMilliseconds.None? {
        var since := clock.NowMilliseconds();
        connectedSinceMilliseconds := Some(since);
        r := Reading(true, since, since);
      }
      if queriedThisConnection {
        return false, r;
      }
      var now := clock.NowMilliseconds();
      r := Reading(true, r.sinceAt, now);
      return Elapsed(now, connectedSinceMilliseconds.value, Bits32) >= STABLE_CONNECTION_MS, r;
    }

    method QueryAllTurnouts() returns (ghost sendAt: seq<nat>)
      requires scheduler.clock == clock
      modifies pendingAcks, scheduler, clock
      ensures |sendAt| == BATCH_SIZE && Time.Ascending([old(clock.now)] + sendAt) && clock.now == sendAt[BATCH_SIZE - 1]
      ensures pendingAcks.pendingAddresses == old(pendingAcks.pendingAddresses) + Batch()
      ensures scheduler.pending == old(scheduler.pending) + BatchSends(sendAt)
    {
      sendAt := [];
      var delayMilliseconds := 0;
      var address := MIN_TURNOUT_ADDRESS;
      while address <= MAX_TURNOUT_ADDRESS
        invariant MIN_TURNOUT_ADDRESS <= address <= MAX_TURNOUT_ADDRESS + 1
        invariant |sendAt| == address - MIN_TURNOUT_ADDRESS
        invariant delayMilliseconds == QUERY_STAGGER_MS * |sendAt|
        invariant pendingAcks.pendingAddresses == old(pendingAcks.pendingAddresses) + Batch()[..|sendAt|]
        invariant scheduler.pending == old(scheduler.pending) + BatchSends(sendAt)
        invariant Time.Ascending([old(clock.now)] + sendAt)
        invariant clock.now == ([old(clock.now)] + sendAt)[|sendAt|]
      {
        pendingAcks.Expect(address);
        ghost var at := scheduler.SendAfter(StateRequest(address), delayMilliseconds);
        BatchSendsSnoc(sendAt, at);
        AscendingSnoc(old(clock.now), sendAt, at);
        assert Batch()[..|sendAt| + 1] == Batch()[..|sendAt|] + [address];
        sendAt := sendAt + [at];
        delayMilliseconds := delayMilliseconds + QUERY_STAGGER_MS;
        address := address + 1;
      }
      assert Batch()[..BATCH_SIZE] == Batch();
    }

    method Update() returns (ghost r: Reading, ghost sendAt: seq<nat>)
      requires scheduler.clock == clock
      modifies this, pendingAcks, scheduler, clock
      ensures |sendAt| == BATCH_SIZE && Time.Ascending([old(clock.now), r.sinceAt, r.readyAt] + sendAt)
      ensures clock.now == sendAt[BATCH_SIZE - 1]
      ensures State() == QueryNext(old(State()), r, Bits32)
      ensures pendingAcks.pendingAddresses
              == old(pendingAcks.pendingAddresses) + if Fires(old(State()), r, Bits32) then Batch() else []
      ensures scheduler.pending
              == old(scheduler.pending) + if Fires(old(State()), r, Bits32) then BatchSends(sendAt) else []
    {
      r := Reading(false, clock.now, clock.now);
      sendAt := seq(BATCH_SIZE, _ => r.readyAt);
      var connected := stream.IsConnected();
      if !connected {
        ResetForNextConnection();
        return;
      }
      var ready;
      ready, r := ReadyToQuery();
      sendAt := seq(BATCH_SIZE, _ => r.readyAt);
      if ready {
        sendAt := QueryAllTurnouts();
        AscendingPrepend(old(clock.now), r.sinceAt, r.readyAt, sendAt);
        queriedThisConnection := true;
      }
    }
  }

  lemma BatchSendsSnoc(sendAt: seq<nat>, at: nat)
    ensures BatchSends(sendAt + [at])
            == BatchSends(sendAt)
               + [PendingSend(StateRequest(MIN_TURNOUT_ADDRESS + |sendAt|), at + QUERY_STAGGER_MS * |sendAt|)]
  {
    var all, before := BatchSends(sendAt + [at]), BatchSends(sendAt);
    forall i | 0 <= i < |before| ensures all[i] == before[i] {
      assert (sendAt + [at])[i] == sendAt[i];
    }
  }

  lemma AscendingPrepend(a: nat, b: nat, c: nat, s: seq<nat>)
    requires a <= b <= c && Time.Ascending([c] + s)
    ensures Time.Ascending([a, b, c] + s)
  {
    var t := [a, b, c] + s;
    forall i, j | 0 <= i < j < |t| ensures t[i] <= t[j] {
      if j >= 3 {
        assert t[j] == ([c] + s)[j - 2];
        if i >= 2 { assert t[i] == ([c] + s)[i - 2]; }
        assert ([c] + s)[0] <= ([c] + s)[j - 2];
      }
    }
  }

  // -------------------------------------------------------- command router

  function PulseOf(message: IncomingMqttMessage): seq<Frame>
  {
    if CommandOf(message).Some? then [BuildSwReq(CommandOf(message).value, true)] else []
  }

  function SendOf(message: IncomingMqttMessage, at: nat): seq<PendingSend>
  {
    if CommandOf(message).Some? then [Bridge.OffSend(CommandOf(message).value, at)] else []
  }

  /** ON pulses and delayed OFF pulses of a list of messages; one clock reading each. */
  function CommandPulses(messages: seq<IncomingMqttMessage>): seq<Frame>
  {
    if messages == [] then []
    else CommandPulses(messages[..|messages| - 1]) + PulseOf(messages[|messages| - 1])
  }

  function CommandSends(messages: seq<IncomingMqttMessage>, at: seq<nat>): seq<PendingSend>
    requires |at| == |messages|
  {
    if messages == [] then []
    else
      var n := |messages| - 1;
      CommandSends(messages[..n], at[..n]) + SendOf(messages[n], at[n])
  }

  lemma CommandsStep(all: seq<IncomingMqttMessage>, at: seq<nat>, taken: nat)
    requires |at| < |all|
    ensures var n := |at|;
            && CommandPulses(all[..n + 1]) == CommandPulses(all[..n]) + PulseOf(all[n])
            && CommandSends(all[..n + 1], at + [taken]) == CommandSends(all[..n], at) + SendOf(all[n], taken)
  {
    var n := |at|;
    assert all[..n + 1][..n] == all[..n] && (at + [taken])[..n] == at;
  }

  /** After n messages of a queue, `message` is the one just taken and `rest` is what is left. */
  predicate Unread(all: seq<IncomingMqttMessage>, n: nat, message: Option<IncomingMqttMessage>,
                   rest: seq<IncomingMqttMessage>)
  {
    && n <= |all|
    && (message.Some? ==> n < |all| && all[n] == message.value && rest == all[n + 1..])
    && (message.None? ==> n == |all| && rest == [])
  }

  lemma UnreadNext(all: seq<IncomingMqttMessage>, n: nat, message: IncomingMqttMessage, rest: seq<IncomingMqttMessage>)
    requires Unread(all, n, Some(message), rest)
    ensures rest == [] ==> Unread(all, n + 1, None, [])
    ensures rest != [] ==> Unread(all, n + 1, Some(rest[0]), rest[1..])
  {
  }

  /** Part way through the queue: the first |at| messages are acted on. */
  predicate ActedOn(all: seq<IncomingMqttMessage>, at: seq<nat>, sent: seq<Frame>, sent': seq<Frame>,
                    pending: seq<PendingSend>, pending': seq<PendingSend>)
  {
    && |at| <= |all|
    && sent' == sent + CommandPulses(all[..|at|]) && pending' == pending + CommandSends(all[..|at|], at)
  }

  lemma ActNext(all: seq<IncomingMqttMessage>, at: seq<nat>, taken: nat, sent: seq<Frame>, sent': seq<Frame>,
                pending: seq<PendingSend>, pending': seq<PendingSend>)
    requires ActedOn(all, at, sent, sent', pending, pending') && |at| < |all|
    ensures ActedOn(all, at + [taken], sent, sent' + PulseOf(all[|at|]), pending, pending' + SendOf(all[|at|], taken))
  {
    CommandsStep(all, at, taken);
    Regroup(sent, CommandPulses(all[..|at|]), PulseOf(all[|at|]));
    Regroup(pending, CommandSends(all[..|at|], at), SendOf(all[|at|], taken));
  }

  lemma ActDone(all: seq<IncomingMqttMessage>, at: seq<nat>, sent: seq<Frame>, sent': seq<Frame>,
                pending: seq<PendingSend>, pending': seq<PendingSend>)
    requires ActedOn(all, at, sent, sent', pending, pending') && |at| == |all|
    ensures sent' == sent + CommandPulses(all) && pending' == pending + CommandSends(all, at)
  {
    assert all[..|at|] == all;
  }

  class MqttCommandRouter {
    const mqttPort: MqttPort
    const scheduler: PendingLocoNetSendScheduler

    constructor (mqttPort: MqttPort, scheduler: PendingLocoNetSendScheduler)
      ensures this.mqttPort == mqttPort && this.scheduler == scheduler
    {
      this.mqttPort, this.scheduler := mqttPort, scheduler;
    }

    method EncodeCommand(command: Turnout) returns (ghost at: nat)
      requires scheduler.port.Valid()
      modifies scheduler, scheduler.clock, scheduler.port, scheduler.port.stream`written
      ensures scheduler.port.Valid() && old(scheduler.clock.now) <= scheduler.clock.now == at
      ensures scheduler.port.sent == old(scheduler.port.sent) + [BuildSwReq(command, true)]
      ensures scheduler.pending == old(scheduler.pending) + [Bridge.OffSend(command, at)]
    {
      scheduler.SendNow(BuildSwReq(command, true));
      at := scheduler.SendAfter(BuildSwReq(command, false), Bridge.OFF_PULSE_DELAY_MS);
    }

    method HandleMessage(message: IncomingMqttMessage) returns (ghost at: nat)
      requires scheduler.port.Valid()
      modifies scheduler, scheduler.clock, scheduler.port, scheduler.port.stream`written
      ensures scheduler.port.Valid() && old(scheduler.clock.now) <= scheduler.clock.now == at
      ensures scheduler.port.sent == old(scheduler.port.sent) + PulseOf(message)
      ensures scheduler.pending == old(scheduler.pending) + SendOf(message, at)
    {
      at := scheduler.clock.now;
      var parsed := ParseDeviceTypeAndAddress(message.topic);
      if parsed.None? {
        return;
      }
      if parsed.value.0 != "turnout" {
        return;
      }
      var command := DecodeCommand(parsed.value.1, message.payload);
      if command.Some? {
        at := EncodeCommand(command.value);
      }
    }

    method Update() returns (ghost at: seq<nat>)
      requires scheduler.port.Valid()
      modifies mqttPort`commands, scheduler, scheduler.clock, scheduler.port, scheduler.port.stream`written
      ensures scheduler.port.Valid() && mqttPort.commands == []
      ensures |at| == |old(mqttPort.commands)| && Time.Ascending([old(scheduler.clock.now)] + at)
      ensures scheduler.clock.now == ([old(scheduler.clock.now)] + at)[|at|]
      ensures scheduler.port.sent == old(scheduler.port.sent) + CommandPulses(old(mqttPort.commands))
      ensures scheduler.pending == old(scheduler.pending) + CommandSends(old(mqttPort.commands), at)
    {
      ghost var all := mqttPort.commands;
      ghost var sent, pending := scheduler.port.sent, scheduler.pending;
      at := [];
      assert all != [] ==> Unread(all, 0, Some(all[0]), all[1..]);
      var message := mqttPort.ReceiveCommand();
      while message.Some?
        invariant Unread(all, |at|, message, mqttPort.commands)
        invariant Time.Ascending([old(scheduler.clock.now)] + at)
        invariant scheduler.clock.now == ([old(scheduler.clock.now)] + at)[|at|]
        invariant scheduler.port.Valid()
        invariant ActedOn(all, at, sent, scheduler.port.sent, pending, scheduler.pending)
        decreases |mqttPort.commands|, message.Some?
      {
        UnreadNext(all, |at|, message.value, mqttPort.commands);
        ghost var sentSoFar, waiting := scheduler.port.sent, scheduler.pending;
        ghost var taken := HandleMessage(message.value);
        AscendingSnoc(old(scheduler.clock.now), at, taken);
        ActNext(all, at, taken, sent, sentSoFar, pending, waiting);
        at := at + [taken];
        message := mqttPort.ReceiveCommand();
      }
      ActDone(all, at, sent, scheduler.port.sent, pending, scheduler.pending);
    }
  }

  // ------------------------------------------------------ status publisher

  class JmriConnectionStatusPublisher {
    const stream: SocketLineStream
    const mqttPort: MqttPort
    const clock: Clock
    var lastKnownConnected: Option<bool>
    var lastPublishedAtMs: nat

    function State(): Status
      reads this
    {
      Status(lastKnownConnected, lastPublishedAtMs)
    }

    constructor (stream: SocketLineStream, mqttPort: MqttPort, clock: Clock)
      ensures this.stream == stream && this.mqttPort == mqttPort && this.clock == clock && State() == UNKNOWN
    {
      this.stream, this.mqttPort, this.clock := stream, mqttPort, clock;
      lastKnownConnected, lastPublishedAtMs := None, 0;
    }

    method PublishStatus() returns (ghost payload: bool)
      modifies this, clock, mqttPort`published
      ensures old(clock.now) <= clock.now == lastPublishedAtMs && lastKnownConnected == old(lastKnownConnected)
      ensures mqttPort.published == old(mqttPort.published) + [StatusMessage(payload)]
    {
      var connected := stream.IsConnected();
      payload := connected;
      mqttPort.Publish(StatusMessage(connected));
      lastPublishedAtMs := clock.NowMilliseconds();
    }

    method Update() returns (ghost r: StatusReading)
      modifies this, clock, mqttPort`published
      ensures Time.Ascending([old(clock.now), r.changeAt, r.readAt, r.dueAt, clock.now])
      ensures State() == StatusNext(old(State()), r, Bits32)
      ensures mqttPort.published == old(mqttPort.published) + StatusMessages(old(State()), r, Bits32)
    {
      ghost var connected, changePayload := PublishIfChanged();
      ghost var changeAt := clock.now;
      ghost var readAt, duePayload := RepublishIfDue();
      r := StatusReading(connected, changePayload, changeAt, readAt, duePayload, clock.now);
    }

    method PublishIfChanged() returns (ghost connected: bool, ghost payload: bool)
      modifies this, clock, mqttPort`published
      ensures old(clock.now) <= clock.now
      ensures var changed := old(lastKnownConnected) != Some(connected);
              && State() == (if changed then Status(Some(connected), clock.now) else old(State()))
              && mqttPort.published == old(mqttPort.published) + if changed then [StatusMessage(payload)] else []
    {
      var reading := stream.IsConnected();
      connected, payload := reading, false;
      if lastKnownConnected == Some(reading) {
        return;
      }
      lastKnownConnected := Some(reading);
      payload := PublishStatus();
    }

    method RepublishIfDue() returns (ghost readAt: nat, ghost payload: bool)
      modifies this, clock, mqttPort`published
      ensures old(clock.now) <= readAt <= clock.now
      ensures var due := Elapsed(readAt, old(lastPublishedAtMs), Bits32) >= STATUS_REPUBLISH_INTERVAL_MS;
              && State() == (if due then old(State()).(lastPublishedAt := clock.now) else old(State()))
              && mqttPort.published == old(mqttPort.published) + if due then [StatusMessage(payload)] else []
    {
      var now := clock.NowMilliseconds();
      readAt, payload := now, false;
      if Elapsed(now, lastPublishedAtMs, Bits32) < STATUS_REPUBLISH_INTERVAL_MS {
        return;
      }
      payload := PublishStatus();
    }
  }
}
