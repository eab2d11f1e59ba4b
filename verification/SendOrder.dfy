/** The order in which frames leave the bridge, over every run: state requests against the addresses
    expected, OFF pulses against the commands that caused them. */
module SendOrder {
  import opened Basics
  import opened LocoNet
  import opened Time
  import opened Scheduler
  import opened Mqtt
  import opened TableQuery
  import opened Bridge

  predicate IsOffPulse(frame: Frame) { IsPulse(frame, false) }

  // -------------------------------------------------------- request order

  /** The sends that have been released, in order of release. */
  function ReleasedSends(sent: seq<Departure>): seq<PendingSend>
  {
    if sent == [] then []
    else if sent[|sent| - 1].Released? then ReleasedSends(sent[..|sent| - 1]) + [sent[|sent| - 1].send]
    else ReleasedSends(sent[..|sent| - 1])
  }

  lemma {:induction false} ReleasedAppend(sent: seq<Departure>, more: seq<Departure>)
    ensures ReleasedSends(sent + more) == ReleasedSends(sent) + ReleasedSends(more)
    decreases |more|
  {
    if more == [] {
      assert sent + more == sent;
    } else {
      var n := |more| - 1;
      ReleasedAppend(sent, more[..n]);
      assert (sent + more)[..|sent + more| - 1] == sent + more[..n];
    }
  }

  lemma {:induction false} ReleasedOfReleases(sends: seq<PendingSend>, at: nat)
    ensures ReleasedSends(Releases(sends, at)) == sends
  {
    if sends != [] {
      var n := |sends| - 1;
      ReleasedOfReleases(sends[..n], at);
      assert Releases(sends, at)[..n] == Releases(sends[..n], at);
    }
  }

  /** One kind of delayed send keeps its order: what was released, then what waits, is what was
      scheduled. */
  predicate KeepsOrder(w: World, kind: Frame -> bool)
  {
    && InDueOrder(Only(w.scheduled, kind))
    && Only(ReleasedSends(w.sent), kind) + Only(w.pending, kind) == Only(w.scheduled, kind)
  }

  lemma SchedulerKeepsOrder(w: World, now: nat, kind: Frame -> bool)
    requires KeepsOrder(w, kind)
    ensures KeepsOrder(SchedulerStep(w, now), kind)
  {
    var due := Due(w.pending, now);
    var released := Only(ReleasedSends(w.sent), kind);
    assert InDueOrder(Only(w.pending, kind)) by {
      assert Only(w.pending, kind) == Only(w.scheduled, kind)[|released|..];
    }
    ScanTakesPrefixOfKind(w.pending, kind, now);
    ReleasedAppend(w.sent, Releases(due, now));
    ReleasedOfReleases(due, now);
    OnlyAppend(ReleasedSends(w.sent), due, kind);
    Regroup(released, Only(due, kind), Only(Kept(w.pending, now), kind));
  }

  /** Scheduling more sends keeps the order of a kind if they come due no earlier than before. */
  lemma ScheduleKeepsOrder(w: World, w': World, more: seq<PendingSend>, kind: Frame -> bool)
    requires KeepsOrder(w, kind)
    requires w'.scheduled == w.scheduled + more && w'.pending == w.pending + more
    requires ReleasedSends(w'.sent) == ReleasedSends(w.sent)
    requires InDueOrder(Only(more, kind))
    requires forall a, b | a in Only(w.scheduled, kind) && b in Only(more, kind) :: a.dueAt <= b.dueAt
    ensures KeepsOrder(w', kind)
  {
    OnlyAppend(w.scheduled, more, kind);
    OnlyAppend(w.pending, more, kind);
    DueOrderAppend(Only(w.scheduled, kind), Only(more, kind));
    Regroup(Only(ReleasedSends(w.sent), kind), Only(w.pending, kind), Only(more, kind));
  }

  lemma DueOrderAppend(a: seq<PendingSend>, b: seq<PendingSend>)
    requires InDueOrder(a) && InDueOrder(b)
    requires forall x, y | x in a && y in b :: x.dueAt <= y.dueAt
    ensures InDueOrder(a + b)
  {
  }

  // ------------------------------------------------------------ addresses

  function Addresses(sends: seq<PendingSend>): seq<int>
    requires forall s | s in sends :: |s.message| >= 3
  {
    seq(|sends|, i requires 0 <= i < |sends| => AddressFrom(sends[i].message))
  }

  /** Addresses of the OPC_SW_STATE requests among some sends, in order. */
  function RequestedAddresses(sends: seq<PendingSend>): seq<int>
  {
    OnlyMembers(sends, IsStateRequest);
    Addresses(Only(sends, IsStateRequest))
  }

  lemma RequestedAppend(a: seq<PendingSend>, b: seq<PendingSend>)
    ensures RequestedAddresses(a + b) == RequestedAddresses(a) + RequestedAddresses(b)
  {
    OnlyAppend(a, b, IsStateRequest);
    OnlyMembers(a, IsStateRequest);
    OnlyMembers(b, IsStateRequest);
  }

  lemma {:induction false} AllOfKind(sends: seq<PendingSend>, kind: Frame -> bool)
    ensures (forall s | s in sends :: kind(s.message)) ==> Only(sends, kind) == sends
    ensures (forall s | s in sends :: !kind(s.message)) ==> Only(sends, kind) == []
  {
    if sends != [] { AllOfKind(sends[1..], kind); }
  }

  lemma BatchMessage(sendAt: seq<nat>, i: nat)
    requires i < |sendAt| == BATCH_SIZE
    ensures var m := BatchSends(sendAt)[i].message;
            |m| == 4 && IsStateRequest(m) && !IsOffPulse(m) && AddressFrom(m) == MIN_TURNOUT_ADDRESS + i
  {
    StateRequestReadsBack(MIN_TURNOUT_ADDRESS + i);
  }

  /** A batch is 48 requests for addresses 1 to 48 ... */
  lemma BatchIsRequests(sendAt: seq<nat>)
    requires |sendAt| == BATCH_SIZE
    ensures Only(BatchSends(sendAt), IsStateRequest) == BatchSends(sendAt)
    ensures Only(BatchSends(sendAt), IsOffPulse) == []
    ensures RequestedAddresses(BatchSends(sendAt)) == Batch()
  {
    var sends := BatchSends(sendAt);
    forall s | s in sends ensures IsStateRequest(s.message) && !IsOffPulse(s.message) {
      var i :| 0 <= i < |sends| && sends[i] == s;
      BatchMessage(sendAt, i);
    }
    AllOfKind(sends, IsStateRequest);
    AllOfKind(sends, IsOffPulse);
    forall i | 0 <= i < |sends| ensures RequestedAddresses(sends)[i] == Batch()[i] {
      BatchMessage(sendAt, i);
    }
  }

  /** ... coming due in that order, none before the first reading or 940 ms past the last. */
  lemma BatchIsOrdered(sendAt: seq<nat>)
    requires |sendAt| == BATCH_SIZE && Ascending(sendAt)
    ensures InDueOrder(BatchSends(sendAt))
    ensures forall s | s in BatchSends(sendAt) ::
              sendAt[0] <= s.dueAt <= sendAt[BATCH_SIZE - 1] + BATCH_SPAN_MS
  {
  }

  // ------------------------------------- invariant 1: requests stay in order

  /** No request already scheduled comes due after the bound: 940 ms past the connection that is
      waiting to be called stable, or past the present. */
  function RequestDueBound(w: World): nat
  {
    if w.query.connectedSince.Some? && !w.query.queriedThisConnection
    then w.query.connectedSince.value + BATCH_SPAN_MS
    else w.clock + BATCH_SPAN_MS
  }

  ghost predicate RequestsInOrder(w: World)
  {
    && KeepsOrder(w, IsStateRequest)
    && RequestedAddresses(w.scheduled) == w.expected
    && (forall s | s in w.scheduled && IsStateRequest(s.message) :: s.dueAt <= RequestDueBound(w))
    && (w.query.connectedSince.Some? ==> w.query.connectedSince.value <= w.clock)
  }

  lemma FiringFollowsAllRequests(w: World, r: Reading, sendAt: seq<nat>)
    requires RequestsInOrder(w) && Enabled(w, CheckQuery(r, sendAt)) && Fires(w.query, r, Bits32)
    ensures Ascending(sendAt) && w.clock <= r.sinceAt <= r.readyAt <= sendAt[0] <= sendAt[BATCH_SIZE - 1]
    ensures forall s | s in w.scheduled && IsStateRequest(s.message) :: s.dueAt <= sendAt[0]
  {
    var all := [w.clock] + Readings(CheckQuery(r, sendAt));
    assert all[0] == w.clock && all[1] == r.sinceAt && all[2] == r.readyAt;
    assert forall i | 0 <= i < |sendAt| :: all[i + 3] == sendAt[i];
    ElapsedAtMostTrue(r.readyAt, Since(w.query, r), Bits32);
  }

  lemma BatchKeepsOrder(w: World, r: Reading, sendAt: seq<nat>)
    requires RequestsInOrder(w) && Enabled(w, CheckQuery(r, sendAt)) && Fires(w.query, r, Bits32)
    ensures KeepsOrder(QueryStep(w, r, sendAt), IsStateRequest)
  {
    FiringFollowsAllRequests(w, r, sendAt);
    BatchIsRequests(sendAt);
    BatchIsOrdered(sendAt);
    OnlyMembers(w.scheduled, IsStateRequest);
    ScheduleKeepsOrder(w, QueryStep(w, r, sendAt), BatchSends(sendAt), IsStateRequest);
  }

  lemma BatchKeepsBound(w: World, r: Reading, sendAt: seq<nat>)
    requires RequestsInOrder(w) && Enabled(w, CheckQuery(r, sendAt)) && Fires(w.query, r, Bits32)
    ensures var w' := Next(w, CheckQuery(r, sendAt));
            forall s | s in w'.scheduled && IsStateRequest(s.message) :: s.dueAt <= RequestDueBound(w')
  {
    FiringFollowsAllRequests(w, r, sendAt);
    BatchIsOrdered(sendAt);
    var w' := Next(w, CheckQuery(r, sendAt));
    assert w'.clock == sendAt[BATCH_SIZE - 1];
    forall s | s in w'.scheduled && IsStateRequest(s.message) ensures s.dueAt <= RequestDueBound(w') {
      assert s in w.scheduled || s in BatchSends(sendAt);
    }
  }

  lemma ScheduleBatchKeepsRequests(w: World, r: Reading, sendAt: seq<nat>)
    requires RequestsInOrder(w) && Enabled(w, CheckQuery(r, sendAt)) && Fires(w.query, r, Bits32)
    ensures RequestsInOrder(Next(w, CheckQuery(r, sendAt)))
  {
    BatchKeepsOrder(w, r, sendAt);
    BatchKeepsBound(w, r, sendAt);
    FiringFollowsAllRequests(w, r, sendAt);
    BatchIsRequests(sendAt);
    RequestedAppend(w.scheduled, BatchSends(sendAt));
  }

  lemma OffPulseIsNoRequest(t: Turnout, at: nat)
    requires InRange(t.address)
    ensures !IsStateRequest(OffSend(t, at).message)
    ensures Only([OffSend(t, at)], IsStateRequest) == [] && RequestedAddresses([OffSend(t, at)]) == []
  {
  }

  lemma CommandKeepsOrder(w: World, t: Turnout, w': World, at: nat)
    requires KeepsOrder(w, IsStateRequest) && InRange(t.address)
    requires w'.sent == w.sent + [Immediate(BuildSwReq(t, true), at)]
    requires w'.pending == w.pending + [OffSend(t, at)] && w'.scheduled == w.scheduled + [OffSend(t, at)]
    ensures KeepsOrder(w', IsStateRequest)
    ensures RequestedAddresses(w'.scheduled) == RequestedAddresses(w.scheduled)
  {
    OffPulseIsNoRequest(t, at);
    ReleasedAppend(w.sent, [Immediate(BuildSwReq(t, true), at)]);
    ScheduleKeepsOrder(w, w', [OffSend(t, at)], IsStateRequest);
    RequestedAppend(w.scheduled, [OffSend(t, at)]);
  }

  lemma CommandKeepsRequests(w: World, message: IncomingMqttMessage, at: nat)
    requires RequestsInOrder(w) && w.clock <= at
    ensures RequestsInOrder(CommandStep(w, message, at).(clock := at))
  {
    if CommandOf(message).Some? {
      var t, w' := CommandOf(message).value, CommandStep(w, message, at).(clock := at);
      CommandKeepsOrder(w, t, w', at);
      OffPulseIsNoRequest(t, at);
      forall s | s in w'.scheduled && IsStateRequest(s.message) ensures s.dueAt <= RequestDueBound(w') {
        assert s in w.scheduled;
      }
    }
  }

  lemma QuietQueryKeepsRequests(w: World, r: Reading, sendAt: seq<nat>)
    requires RequestsInOrder(w) && Enabled(w, CheckQuery(r, sendAt)) && !Fires(w.query, r, Bits32)
    ensures RequestsInOrder(Next(w, CheckQuery(r, sendAt)))
  {
    var all := [w.clock] + Readings(CheckQuery(r, sendAt));
    assert all[0] == w.clock && all[1] == r.sinceAt && all[|all| - 1] == Next(w, CheckQuery(r, sendAt)).clock;
    assert w.clock <= r.sinceAt <= Next(w, CheckQuery(r, sendAt)).clock;
  }

  lemma StepKeepsRequests(w: World, step: Step)
    requires RequestsInOrder(w) && Enabled(w, step)
    ensures RequestsInOrder(Next(w, step))
  {
    ClockAdvances(w, step);
    match step {
      case RunScheduler(now) => SchedulerKeepsOrder(w, now, IsStateRequest);
      case CheckQuery(r, sendAt) =>
        if Fires(w.query, r, Bits32) {
          ScheduleBatchKeepsRequests(w, r, sendAt);
        } else {
          QuietQueryKeepsRequests(w, r, sendAt);
        }
      case Command(message, at) => CommandKeepsRequests(w, message, at);
      case _ =>
    }
  }

  lemma {:induction false} RunKeepsRequests(w: World, steps: seq<Step>)
    requires RequestsInOrder(w) && IsRun(w, steps)
    ensures RequestsInOrder(RunFrom(w, steps))
    decreases |steps|
  {
    if steps != [] {
      StepKeepsRequests(w, steps[0]);
      RunKeepsRequests(Next(w, steps[0]), steps[1..]);
    }
  }

  /** On every run, with any number of reconnects, late ticks and interleaved commands: the addresses
      of the state requests sent so far, followed by those still waiting, are exactly the addresses
      put on the correlation queue, in order. */
  lemma RequestsMatchExpectations(steps: seq<Step>)
    requires IsRun(START_UP, steps)
    ensures var w := RunFrom(START_UP, steps);
            RequestedAddresses(ReleasedSends(w.sent)) + RequestedAddresses(w.pending) == w.expected
  {
    assert RequestsInOrder(START_UP);
    RunKeepsRequests(START_UP, steps);
    OrderGivesAddresses(RunFrom(START_UP, steps));
  }

  lemma OrderGivesAddresses(w: World)
    requires RequestsInOrder(w)
    ensures RequestedAddresses(ReleasedSends(w.sent)) + RequestedAddresses(w.pending) == w.expected
  {
  }

  lemma AddressesAppend(a: seq<PendingSend>, b: seq<PendingSend>)
    requires forall s | s in a :: |s.message| >= 3
    requires forall s | s in b :: |s.message| >= 3
    ensures Addresses(a + b) == Addresses(a) + Addresses(b)
  {
  }

  // --------------------------------------- invariant 2: pulses stay paired

  function OffSends(commands: seq<Accepted>): seq<PendingSend>
  {
    seq(|commands|, i requires 0 <= i < |commands| => OffSend(commands[i].turnout, commands[i].at))
  }

  function OnPulses(commands: seq<Accepted>): seq<Departure>
  {
    seq(|commands|, i requires 0 <= i < |commands| =>
      Immediate(BuildSwReq(commands[i].turnout, true), commands[i].at))
  }

  function Immediates(sent: seq<Departure>): seq<Departure>
  {
    if sent == [] then []
    else if sent[|sent| - 1].Immediate? then Immediates(sent[..|sent| - 1]) + [sent[|sent| - 1]]
    else Immediates(sent[..|sent| - 1])
  }

  /** The releases of one kind, in order. */
  function ReleasesOf(sent: seq<Departure>, kind: Frame -> bool): seq<Departure>
  {
    if sent == [] then []
    else
      var before, last := ReleasesOf(sent[..|sent| - 1], kind), sent[|sent| - 1];
      if last.Released? && kind(last.send.message) then before + [last] else before
  }

  function OffReleases(sent: seq<Departure>): seq<Departure> { ReleasesOf(sent, IsOffPulse) }

  lemma {:induction false} ReleasesAreReleased(sent: seq<Departure>, kind: Frame -> bool)
    ensures |ReleasesOf(sent, kind)| == |Only(ReleasedSends(sent), kind)|
    ensures forall k | 0 <= k < |ReleasesOf(sent, kind)| ::
              && ReleasesOf(sent, kind)[k] in sent && ReleasesOf(sent, kind)[k].Released?
              && ReleasesOf(sent, kind)[k].send == Only(ReleasedSends(sent), kind)[k]
  {
    if sent != [] {
      var n := |sent| - 1;
      ReleasesAreReleased(sent[..n], kind);
      if sent[n].Released? {
        OnlyAppend(ReleasedSends(sent[..n]), [sent[n].send], kind);
      }
    }
  }

  lemma {:induction false} ImmediatesAfterReleases(sent: seq<Departure>, sends: seq<PendingSend>, at: nat)
    ensures Immediates(sent + Releases(sends, at)) == Immediates(sent)
    decreases |sends|
  {
    if sends == [] {
      assert sent + Releases(sends, at) == sent;
    } else {
      var n := |sends| - 1;
      ImmediatesAfterReleases(sent, sends[..n], at);
      assert (sent + Releases(sends, at))[..|sent| + n] == sent + Releases(sends[..n], at);
    }
  }

  ghost predicate PulsesPaired(w: World)
  {
    && KeepsOrder(w, IsOffPulse)
    && Only(w.scheduled, IsOffPulse) == OffSends(w.commands)
    && Immediates(w.sent) == OnPulses(w.commands)
    && (forall c | c in w.commands :: c.at <= w.clock && InRange(c.turnout.address))
    && (forall d | d in w.sent && d.Released? :: d.at >= d.send.dueAt)
  }

  lemma SchedulerKeepsPulses(w: World, now: nat)
    requires PulsesPaired(w) && Enabled(w, RunScheduler(now))
    ensures PulsesPaired(Next(w, RunScheduler(now)))
  {
    ClockAdvances(w, RunScheduler(now));
    SchedulerKeepsOrder(w, now, IsOffPulse);
    var due := Due(w.pending, now);
    DueMembers(w.pending, now);
    ImmediatesAfterReleases(w.sent, due, now);
    forall d | d in Releases(due, now) ensures d.at >= d.send.dueAt {
      assert d.send in due;
    }
  }

  lemma BatchKeepsPulses(w: World, sendAt: seq<nat>, w': World)
    requires PulsesPaired(w) && |sendAt| == BATCH_SIZE && w.clock <= w'.clock
    requires w'.scheduled == w.scheduled + BatchSends(sendAt) && w'.pending == w.pending + BatchSends(sendAt)
    requires w'.sent == w.sent && w'.commands == w.commands
    ensures PulsesPaired(w')
  {
    BatchIsRequests(sendAt);
    ScheduleKeepsOrder(w, w', BatchSends(sendAt), IsOffPulse);
    OnlyAppend(w.scheduled, BatchSends(sendAt), IsOffPulse);
  }

  lemma QueryKeepsPulses(w: World, r: Reading, sendAt: seq<nat>)
    requires PulsesPaired(w) && Enabled(w, CheckQuery(r, sendAt))
    ensures PulsesPaired(Next(w, CheckQuery(r, sendAt)))
  {
    ClockAdvances(w, CheckQuery(r, sendAt));
    if Fires(w.query, r, Bits32) {
      BatchKeepsPulses(w, sendAt, Next(w, CheckQuery(r, sendAt)));
    }
  }

  lemma CommandAppends(sent: seq<Departure>, commands: seq<Accepted>, t: Turnout, at: nat)
    ensures var on := Immediate(BuildSwReq(t, true), at);
            && OffSends(commands + [Accepted(t, at)]) == OffSends(commands) + [OffSend(t, at)]
            && OnPulses(commands + [Accepted(t, at)]) == OnPulses(commands) + [on]
            && Immediates(sent + [on]) == Immediates(sent) + [on]
            && ReleasedSends(sent + [on]) == ReleasedSends(sent)
  {
  }

  lemma OffSendsDueBy(commands: seq<Accepted>, at: nat)
    requires forall c | c in commands :: c.at <= at
    ensures forall a | a in OffSends(commands) :: a.dueAt <= at + OFF_PULSE_DELAY_MS
  {
  }

  lemma OffSendIsOffPulse(t: Turnout, at: nat)
    requires InRange(t.address)
    ensures Only([OffSend(t, at)], IsOffPulse) == [OffSend(t, at)]
  {
    SwReqReadsBack(t, false);
  }

  lemma CommandKeepsOffOrder(w: World, t: Turnout, w': World, at: nat)
    requires PulsesPaired(w) && w.clock <= at && InRange(t.address)
    requires w'.sent == w.sent + [Immediate(BuildSwReq(t, true), at)]
    requires w'.pending == w.pending + [OffSend(t, at)] && w'.scheduled == w.scheduled + [OffSend(t, at)]
    ensures KeepsOrder(w', IsOffPulse)
  {
    OffSendIsOffPulse(t, at);
    CommandAppends(w.sent, w.commands, t, at);
    OffSendsDueBy(w.commands, at);
    ScheduleKeepsOrder(w, w', [OffSend(t, at)], IsOffPulse);
  }

  lemma CommandKeepsPairs(w: World, t: Turnout, w': World, at: nat)
    requires PulsesPaired(w) && w.clock <= at && InRange(t.address)
    requires w'.sent == w.sent + [Immediate(BuildSwReq(t, true), at)]
    requires w'.scheduled == w.scheduled + [OffSend(t, at)] && w'.commands == w.commands + [Accepted(t, at)]
    ensures Only(w'.scheduled, IsOffPulse) == OffSends(w'.commands) && Immediates(w'.sent) == OnPulses(w'.commands)
    ensures forall d | d in w'.sent && d.Released? :: d.at >= d.send.dueAt
  {
    OffSendIsOffPulse(t, at);
    CommandAppends(w.sent, w.commands, t, at);
    OnlyAppend(w.scheduled, [OffSend(t, at)], IsOffPulse);
  }

  lemma CommandKeepsPulses(w: World, message: IncomingMqttMessage, at: nat)
    requires PulsesPaired(w) && w.clock <= at
    ensures PulsesPaired(CommandStep(w, message, at).(clock := at))
  {
    if CommandOf(message).Some? {
      var t, w' := CommandOf(message).value, CommandStep(w, message, at).(clock := at);
      CommandKeepsOffOrder(w, t, w', at);
      CommandKeepsPairs(w, t, w', at);
    }
  }

  lemma StepKeepsPulses(w: World, step: Step)
    requires PulsesPaired(w) && Enabled(w, step)
    ensures PulsesPaired(Next(w, step))
  {
    ClockAdvances(w, step);
    match step {
      case RunScheduler(now) => SchedulerKeepsPulses(w, now);
      case CheckQuery(r, sendAt) => QueryKeepsPulses(w, r, sendAt);
      case Command(message, at) => CommandKeepsPulses(w, message, at);
      case _ =>
    }
  }

  lemma {:induction false} RunKeepsPulses(w: World, steps: seq<Step>)
    requires PulsesPaired(w) && IsRun(w, steps)
    ensures PulsesPaired(RunFrom(w, steps))
    decreases |steps|
  {
    if steps != [] {
      StepKeepsPulses(w, steps[0]);
      RunKeepsPulses(Next(w, steps[0]), steps[1..]);
    }
  }

  /** On every run: the frames sent at once are the ON pulses of the accepted commands, in order; the
      k-th OFF pulse to leave is the one of the k-th command, not less than 250 ms after its ON pulse;
      and the OFF pulses still waiting are those of the remaining commands, in order. */
  lemma OffPulsesFollowOnPulses(steps: seq<Step>)
    requires IsRun(START_UP, steps)
    ensures var w := RunFrom(START_UP, steps);
            var gone := OffReleases(w.sent);
            && Immediates(w.sent) == OnPulses(w.commands)
            && |gone| <= |w.commands|
            && (forall k | 0 <= k < |gone| ::
                  && gone[k].Message() == BuildSwReq(w.commands[k].turnout, false)
                  && gone[k].Released? && gone[k].at >= gone[k].send.dueAt == w.commands[k].at + 250)
            && Only(w.pending, IsOffPulse) == OffSends(w.commands[|gone|..])
  {
    assert PulsesPaired(START_UP);
    RunKeepsPulses(START_UP, steps);
    PairsSplit(RunFrom(START_UP, steps));
  }

  lemma PairsSplit(w: World)
    requires PulsesPaired(w)
    ensures var gone := OffReleases(w.sent);
            && |gone| <= |w.commands|
            && (forall k | 0 <= k < |gone| ::
                  && gone[k].Message() == BuildSwReq(w.commands[k].turnout, false)
                  && gone[k].Released? && gone[k].at >= gone[k].send.dueAt == w.commands[k].at + 250)
            && Only(w.pending, IsOffPulse) == OffSends(w.commands[|gone|..])
  {
    ReleasesAreReleased(w.sent, IsOffPulse);
    var gone := OffReleases(w.sent);
    var released, waiting, all := Only(ReleasedSends(w.sent), IsOffPulse), Only(w.pending, IsOffPulse), OffSends(w.commands);
    assert released + waiting == all;
    forall k | 0 <= k < |gone|
      ensures gone[k].Message() == BuildSwReq(w.commands[k].turnout, false)
      ensures gone[k].Released? && gone[k].at >= gone[k].send.dueAt == w.commands[k].at + 250
    {
      assert gone[k].send == released[k] == all[k];
      assert gone[k] in w.sent;
    }
    assert waiting == all[|gone|..];
    assert OffSends(w.commands[|gone|..]) == all[|gone|..];
  }

  // -------------------------------------------------------- conservation

  predicate Conserved(w: World)
  {
    multiset(ReleasedSends(w.sent)) + multiset(w.pending) == multiset(w.scheduled)
  }

  lemma ScanConserves(w: World, now: nat)
    requires Conserved(w)
    ensures Conserved(SchedulerStep(w, now))
  {
    var due := Due(w.pending, now);
    ScanPartitions(w.pending, now);
    ReleasedAppend(w.sent, Releases(due, now));
    ReleasedOfReleases(due, now);
  }

  lemma CommandConserves(w: World, message: IncomingMqttMessage, at: nat)
    requires Conserved(w)
    ensures Conserved(CommandStep(w, message, at))
  {
    if CommandOf(message).Some? {
      CommandAppends(w.sent, w.commands, CommandOf(message).value, at);
    }
  }

  lemma StepConserves(w: World, step: Step)
    requires Conserved(w)
    ensures Conserved(Next(w, step))
  {
    match step {
      case RunScheduler(now) => ScanConserves(w, now);
      case Command(message, at) => CommandConserves(w, message, at);
      case _ =>
    }
  }

  /** On every run each scheduled send is either released once or still waiting: none is lost or
      duplicated, whatever kinds are mixed in the list. */
  lemma {:induction false} SendsAreConserved(w: World, steps: seq<Step>)
    requires IsRun(w, steps) && Conserved(w)
    ensures Conserved(RunFrom(w, steps))
    decreases |steps|
  {
    if steps != [] {
      StepConserves(w, steps[0]);
      SendsAreConserved(Next(w, steps[0]), steps[1..]);
    }
  }

  // ---------------------------------------------- when the requests leave

  lemma {:induction false} ScheduledGrows(w: World, steps: seq<Step>)
    ensures w.scheduled <= RunFrom(w, steps).scheduled
    decreases |steps|
  {
    if steps != [] {
      ScheduledGrows(Next(w, steps[0]), steps[1..]);
    }
  }

  lemma OnlyOfPrefix(a: seq<PendingSend>, b: seq<PendingSend>, kind: Frame -> bool)
    requires a <= b
    ensures Only(a, kind) <= Only(b, kind)
  {
    assert b == a + b[|a|..];
    OnlyAppend(a, b[|a|..], kind);
  }

  /** The requests of a batch that fires now are the ones scheduled next, after all those expected. */
  lemma BatchComesNext(w: World, r: Reading, sendAt: seq<nat>, i: nat)
    requires RequestsInOrder(w) && Fires(w.query, r, Bits32) && |sendAt| == BATCH_SIZE && i < BATCH_SIZE
    ensures var requests := Only(Next(w, CheckQuery(r, sendAt)).scheduled, IsStateRequest);
            |w.expected| + i < |requests| && requests[|w.expected| + i] == BatchSends(sendAt)[i]
  {
    BatchIsRequests(sendAt);
    OnlyAppend(w.scheduled, BatchSends(sendAt), IsStateRequest);
  }

  lemma RequestLeavesWhenDue(w: World, k: nat)
    requires RequestsInOrder(w) && PulsesPaired(w)
    ensures var gone, requests := ReleasesOf(w.sent, IsStateRequest), Only(w.scheduled, IsStateRequest);
            k < |gone| ==> k < |requests| && gone[k].Released? && gone[k].send == requests[k]
                           && gone[k].at >= requests[k].dueAt
  {
    ReleasesAreReleased(w.sent, IsStateRequest);
  }

  lemma BatchKeepsItsPlace(w: World, r: Reading, sendAt: seq<nat>, after: seq<Step>, i: nat)
    requires RequestsInOrder(w) && Fires(w.query, r, Bits32) && |sendAt| == BATCH_SIZE && i < BATCH_SIZE
    ensures var requests := Only(RunFrom(Next(w, CheckQuery(r, sendAt)), after).scheduled, IsStateRequest);
            |w.expected| + i < |requests| && requests[|w.expected| + i] == BatchSends(sendAt)[i]
  {
    BatchComesNext(w, r, sendAt, i);
    var next := Next(w, CheckQuery(r, sendAt));
    ScheduledGrows(next, after);
    OnlyOfPrefix(next.scheduled, RunFrom(next, after).scheduled, IsStateRequest);
  }

  lemma RunsKeepBoth(steps: seq<Step>)
    requires IsRun(START_UP, steps)
    ensures RequestsInOrder(RunFrom(START_UP, steps)) && PulsesPaired(RunFrom(START_UP, steps))
  {
    assert RequestsInOrder(START_UP) && PulsesPaired(START_UP);
    RunKeepsRequests(START_UP, steps);
    RunKeepsPulses(START_UP, steps);
  }

  lemma RunThrough(before: seq<Step>, step: Step, after: seq<Step>)
    requires IsRun(START_UP, before + ([step] + after))
    ensures IsRun(START_UP, before) && Enabled(RunFrom(START_UP, before), step)
    ensures RunFrom(START_UP, before + ([step] + after)) == RunFrom(Next(RunFrom(START_UP, before), step), after)
  {
    RunParts(START_UP, before, [step] + after);
    assert ([step] + after)[0] == step && ([step] + after)[1..] == after;
  }

  /** The k-th request to leave, if it has left, is the one for turnout 1 + i, at a scan not before its
      own reading plus 20 i ms. */
  predicate LeavesStaggered(sent: seq<Departure>, k: nat, i: nat, readAt: nat)
  {
    var gone := ReleasesOf(sent, IsStateRequest);
    k < |gone| ==>
      && gone[k].Message() == StateRequest(1 + i)
      && gone[k].Released? && gone[k].at >= gone[k].send.dueAt == readAt + 20 * i
  }

  lemma PlaceGivesTime(steps: seq<Step>, requests: seq<PendingSend>, k: nat, i: nat, readAt: nat)
    returns (sent: seq<Departure>)
    requires IsRun(START_UP, steps) && requests == Only(RunFrom(START_UP, steps).scheduled, IsStateRequest)
    requires k < |requests| && requests[k] == PendingSend(StateRequest(1 + i), readAt + 20 * i)
    ensures sent == RunFrom(START_UP, steps).sent && LeavesStaggered(sent, k, i, readAt)
  {
    RunsKeepBoth(steps);
    sent := RunFrom(START_UP, steps).sent;
    RequestLeavesWhenDue(RunFrom(START_UP, steps), k);
  }

  lemma PlaceOnRun(before: seq<Step>, r: Reading, sendAt: seq<nat>, after: seq<Step>, steps: seq<Step>, i: nat)
    returns (k: nat, requests: seq<PendingSend>)
    requires steps == before + ([CheckQuery(r, sendAt)] + after) && IsRun(START_UP, steps)
    requires Fires(RunFrom(START_UP, before).query, r, Bits32) && i < 48
    ensures k == |RunFrom(START_UP, before).expected| + i
    ensures requests == Only(RunFrom(START_UP, steps).scheduled, IsStateRequest)
    ensures |sendAt| == 48 && k < |requests| && requests[k] == PendingSend(StateRequest(1 + i), sendAt[i] + 20 * i)
  {
    RunThrough(before, CheckQuery(r, sendAt), after);
    RunsKeepBoth(before);
    var w := RunFrom(START_UP, before);
    k := |w.expected| + i;
    requests := Only(RunFrom(Next(w, CheckQuery(r, sendAt)), after).scheduled, IsStateRequest);
    BatchKeepsItsPlace(w, r, sendAt, after, i);
    BatchInFull(sendAt, i);
  }

  /** On every run, whatever comes before and after: the requests of a batch that fires leave in their
      turn and 20 ms apart, each at a scan not before its own reading plus 20 i ms. So a scan at `now`
      has released no request with sendAt[i] + 20 * i > now. */
  lemma RequestsLeaveStaggered(before: seq<Step>, r: Reading, sendAt: seq<nat>, after: seq<Step>,
                               steps: seq<Step>, i: nat) returns (k: nat, sent: seq<Departure>)
    requires steps == before + ([CheckQuery(r, sendAt)] + after) && IsRun(START_UP, steps)
    requires Fires(RunFrom(START_UP, before).query, r, Bits32) && i < 48
    ensures k == |RunFrom(START_UP, before).expected| + i && sent == RunFrom(START_UP, steps).sent
    ensures |sendAt| == 48 && LeavesStaggered(sent, k, i, sendAt[i])
  {
    var requests;
    k, requests := PlaceOnRun(before, r, sendAt, after, steps, i);
    sent := PlaceGivesTime(steps, requests, k, i, sendAt[i]);
  }

  // --------------------------------------------- what goes out on the bus

  /** A frame the bridge may put on the bus: framed, and one of the two pulses or a state request. */
  predicate IsBusFrame(f: Frame) { IsFramed(f) && (IsPulse(f, true) || IsPulse(f, false) || IsStateRequest(f)) }

  predicate OnlyBusFrames(w: World)
  {
    (forall d | d in w.sent :: IsBusFrame(d.Message())) && (forall s | s in w.pending :: IsBusFrame(s.message))
  }

  lemma ScanKeepsBusFrames(w: World, now: nat)
    requires OnlyBusFrames(w)
    ensures OnlyBusFrames(SchedulerStep(w, now))
  {
    DueMembers(w.pending, now);
    forall d | d in Releases(Due(w.pending, now), now) ensures IsBusFrame(d.Message()) {
      assert d.send in Due(w.pending, now);
    }
  }

  lemma BatchIsBusFrames(sendAt: seq<nat>)
    requires |sendAt| == BATCH_SIZE
    ensures forall s | s in BatchSends(sendAt) :: IsBusFrame(s.message)
  {
    forall s | s in BatchSends(sendAt) ensures IsBusFrame(s.message) {
      var i :| 0 <= i < |sendAt| && BatchSends(sendAt)[i] == s;
      RequestBytes(MIN_TURNOUT_ADDRESS + i);
    }
  }

  lemma PulseIsBusFrame(t: Turnout, outputOn: bool)
    requires InRange(t.address)
    ensures IsBusFrame(BuildSwReq(t, outputOn))
  {
    PulseBytes(t, outputOn);
    SwReqReadsBack(t, outputOn);
  }

  lemma StepKeepsBusFrames(w: World, step: Step)
    requires OnlyBusFrames(w) && Enabled(w, step)
    ensures OnlyBusFrames(Next(w, step))
  {
    match step {
      case RunScheduler(now) => ScanKeepsBusFrames(w, now);
      case CheckQuery(r, sendAt) => BatchIsBusFrames(sendAt);
      case Command(message, at) =>
        if CommandOf(message).Some? {
          PulseIsBusFrame(CommandOf(message).value, true);
          PulseIsBusFrame(CommandOf(message).value, false);
        }
      case _ =>
    }
  }

  lemma {:induction false} RunKeepsBusFrames(w: World, steps: seq<Step>)
    requires OnlyBusFrames(w) && IsRun(w, steps)
    ensures OnlyBusFrames(RunFrom(w, steps))
    decreases |steps|
  {
    if steps != [] {
      StepKeepsBusFrames(w, steps[0]);
      RunKeepsBusFrames(Next(w, steps[0]), steps[1..]);
    }
  }

  /** On every run every frame handed to the port is a well-formed message of the bus - four bytes, only
      the first with its top bit set, completed by their checksum - and a pulse or a state request. */
  lemma EverySentFrameIsWellFormed(steps: seq<Step>)
    requires IsRun(START_UP, steps)
    ensures forall d | d in RunFrom(START_UP, steps).sent :: IsBusFrame(d.Message())
  {
    RunKeepsBusFrames(START_UP, steps);
  }
}
