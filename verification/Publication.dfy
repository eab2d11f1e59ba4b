/** What MQTT subscribers know: the publication log, replayed with the last payload per topic, is the
    decoder's table - for a subscriber from the start, and for a late one after one full republish. */
module Publication {
  import opened Basics
  import opened LocoNet
  import opened Time
  import opened TurnoutDecoder
  import opened Mqtt
  import TableQuery
  import opened Timers
  import opened Bridge

  /** The log from position k on, replayed, mirrors the table; or at least is about known turnouts. */
  ghost predicate SeesAll(w: World, k: nat) { k <= |w.published| && Mirrors(Replay(w.published[k..]), w.decoder.table) }

  ghost predicate SeesKnown(w: World, k: nat) { k <= |w.published| && Covered(Replay(w.published[k..]), w.decoder.table) }

  lemma ReceiveKeepsMirror(w: World, m: Frame, k: nat)
    requires SeesAll(w, k)
    ensures SeesAll(ReceiveStep(w, m), k)
  {
    var seen, event := Observation(w.decoder.fifo, m), Emission(w.decoder, m);
    if event.Some? {
      PublishingAChangeKeepsMirror(w.published[k..], w.decoder.table, event.value);
      DropAppend(w.published, [EncodeState(event.value)], k);
    } else if seen.Some? {
      assert w.decoder.table[seen.value.address := seen.value.position] == w.decoder.table;
    }
  }

  lemma ReceiveKeepsKnown(w: World, m: Frame, k: nat)
    requires SeesKnown(w, k)
    ensures SeesKnown(ReceiveStep(w, m), k)
  {
    var table, table' := w.decoder.table, Handle(w.decoder, m).table;
    assert forall a | a in table :: a in table';
    var event := Emission(w.decoder, m);
    if event.Some? {
      var t := event.value;
      ReplaySnoc(w.published[k..], EncodeState(t));
      DropAppend(w.published, [EncodeState(t)], k);
      assert t.address in table';
    }
  }

  lemma {:induction false} StatusMessagesKeep(log: seq<MqttMessage>, table: map<int, Position>, more: seq<MqttMessage>)
    requires forall m | m in more :: m.topic == STATUS_TOPIC
    ensures Covered(Replay(log), table) ==> Covered(Replay(log + more), table)
    ensures Mirrors(Replay(log), table) ==> Mirrors(Replay(log + more), table)
    decreases |more|
  {
    if more == [] {
      assert log + more == log;
    } else {
      var n := |more| - 1;
      StatusMessagesKeep(log, table, more[..n]);
      assert log + more == (log + more[..n]) + [more[n]];
      assert more[n] in more;
      ReplaySnoc(log + more[..n], more[n]);
      if Mirrors(Replay(log), table) {
        PublishingStatusKeepsMirror(log + more[..n], table, more[n]);
      }
    }
  }

  lemma RepublishKeepsMirror(w: World, c: Check, k: nat)
    requires SeesKnown(w, k)
    ensures RepublishDue(w.lastRepublishAt, c, Bits32) ==> SeesAll(RepublishStep(w, c), k)
    ensures !RepublishDue(w.lastRepublishAt, c, Bits32) ==> RepublishStep(w, c).published == w.published
  {
    if RepublishDue(w.lastRepublishAt, c, Bits32) {
      var more := EncodeStates(KnownStates(w.decoder.table));
      RepublishMirrors(w.published[k..], w.decoder.table);
      DropAppend(w.published, more, k);
    }
  }

  lemma StepKeepsSeen(w: World, step: Step, k: nat)
    ensures SeesKnown(w, k) ==> SeesKnown(Next(w, step), k)
    ensures SeesAll(w, k) ==> SeesAll(Next(w, step), k)
  {
    if SeesKnown(w, k) {
      match step {
        case Receive(m) =>
          ReceiveKeepsKnown(w, m, k);
          if SeesAll(w, k) { ReceiveKeepsMirror(w, m, k); }
        case CheckRepublish(c) => RepublishKeepsMirror(w, c, k);
        case CheckStatus(r) =>
          var more := StatusMessages(w.status, r, Bits32);
          StatusMessagesKeep(w.published[k..], w.decoder.table, more);
          DropAppend(w.published, more, k);
        case _ =>
      }
    }
  }

  lemma {:induction false} RunKeepsSeen(w: World, steps: seq<Step>, k: nat)
    ensures SeesKnown(w, k) ==> SeesKnown(RunFrom(w, steps), k)
    ensures SeesAll(w, k) ==> SeesAll(RunFrom(w, steps), k)
    decreases |steps|
  {
    if steps != [] {
      StepKeepsSeen(w, steps[0], k);
      RunKeepsSeen(Next(w, steps[0]), steps[1..], k);
    }
  }

  /** On every sequence of steps, whatever the clock does, a subscriber present from the start holds
      exactly the decoder's table. */
  lemma WholeLogMirrorsTable(steps: seq<Step>)
    ensures var w := RunFrom(START_UP, steps); Mirrors(Replay(w.published), w.decoder.table)
  {
    assert SeesAll(START_UP, 0);
    RunKeepsSeen(START_UP, steps, 0);
    var w := RunFrom(START_UP, steps);
    assert w.published[0..] == w.published;
  }

  lemma {:induction false} PublishedGrows(w: World, steps: seq<Step>)
    ensures w.published <= RunFrom(w, steps).published
    decreases |steps|
  {
    if steps != [] {
      PublishedGrows(Next(w, steps[0]), steps[1..]);
    }
  }

  /** A subscriber that joins anywhere in a run - after `before`, having missed the first k messages,
      however many - holds exactly the table from the first full republish on, and for good. */
  lemma LateSubscriberCatchesUp(before: seq<Step>, check: Check, after: seq<Step>, k: nat)
    requires k <= |RunFrom(START_UP, before).published|
    requires RepublishDue(RunFrom(START_UP, before).lastRepublishAt, check, Bits32)
    ensures var w := RunFrom(START_UP, before + [CheckRepublish(check)] + after);
            k <= |w.published| && Mirrors(Replay(w.published[k..]), w.decoder.table)
  {
    var joined := RunFrom(START_UP, before);
    WholeLogIsKnown(before, k);
    RepublishKeepsMirror(joined, check, k);
    var republished := Next(joined, CheckRepublish(check));
    assert SeesAll(republished, k);
    RunKeepsSeen(republished, after, k);
    RunSplit(START_UP, before, CheckRepublish(check), after);
  }

  lemma {:induction false} RunSplit(w: World, before: seq<Step>, step: Step, after: seq<Step>)
    ensures RunFrom(w, before + [step] + after) == RunFrom(Next(RunFrom(w, before), step), after)
    decreases |before|
  {
    var all := before + [step] + after;
    if before == [] {
      assert all[0] == step && all[1..] == after;
    } else {
      assert all[0] == before[0] && all[1..] == before[1..] + [step] + after;
      RunSplit(Next(w, before[0]), before[1..], step, after);
    }
  }

  /** Any part of the log is about turnouts in the table: every message ever published was. */
  ghost predicate AllKnown(log: seq<MqttMessage>, table: map<int, Position>)
  {
    forall m | m in log :: m.topic == STATUS_TOPIC || exists a :: a in table && m.topic == Topic(a)
  }

  lemma {:induction false} ReplayOfKnown(log: seq<MqttMessage>, table: map<int, Position>)
    requires AllKnown(log, table)
    ensures Covered(Replay(log), table)
  {
    if log != [] {
      var n := |log| - 1;
      ReplayOfKnown(log[..n], table);
      assert log[n] in log;
    }
  }

  lemma StepPublishesKnown(w: World, step: Step)
    requires AllKnown(w.published, w.decoder.table)
    ensures AllKnown(Next(w, step).published, Next(w, step).decoder.table)
  {
    var w' := Next(w, step);
    assert forall a | a in w.decoder.table :: a in w'.decoder.table;
    forall m | m in w'.published
      ensures m.topic == STATUS_TOPIC || exists a :: a in w'.decoder.table && m.topic == Topic(a)
    {
      if m !in w.published {
        match step {
          case Receive(frame) =>
            assert m == EncodeState(Emission(w.decoder, frame).value);
            assert Emission(w.decoder, frame).value.address in w'.decoder.table;
          case CheckRepublish(c) =>
            var states := KnownStates(w.decoder.table);
            KnownStatesListTheTable(w.decoder.table);
            assert m in EncodeStates(states);
            var i :| 0 <= i < |states| && EncodeStates(states)[i] == m;
            assert states[i] in states;
          case CheckStatus(r) =>
          case _ => assert false;
        }
      }
    }
  }

  lemma {:induction false} RunPublishesKnown(w: World, steps: seq<Step>)
    requires AllKnown(w.published, w.decoder.table)
    ensures AllKnown(RunFrom(w, steps).published, RunFrom(w, steps).decoder.table)
    decreases |steps|
  {
    if steps != [] {
      StepPublishesKnown(w, steps[0]);
      RunPublishesKnown(Next(w, steps[0]), steps[1..]);
    }
  }

  lemma WholeLogIsKnown(steps: seq<Step>, k: nat)
    requires k <= |RunFrom(START_UP, steps).published|
    ensures SeesKnown(RunFrom(START_UP, steps), k)
  {
    RunPublishesKnown(START_UP, steps);
    var w := RunFrom(START_UP, steps);
    assert forall m | m in w.published[k..] :: m in w.published;
    ReplayOfKnown(w.published[k..], w.decoder.table);
  }

  // ------------------------------------------------ addresses over a run

  lemma BatchInRange()
    ensures forall a | a in TableQuery.Batch() :: InRange(a)
  {
  }

  lemma StepKeepsRange(w: World, step: Step)
    requires AddressesInRange(w.decoder)
    ensures AddressesInRange(Next(w, step).decoder)
  {
    match step {
      case Receive(m) => HandleKeepsRange(w.decoder, m);
      case CheckQuery(r, sendAt) => BatchInRange();
      case _ =>
    }
  }

  lemma {:induction false} RunKeepsRange(w: World, steps: seq<Step>)
    requires AddressesInRange(w.decoder)
    ensures AddressesInRange(RunFrom(w, steps).decoder)
    decreases |steps|
  {
    if steps != [] {
      StepKeepsRange(w, steps[0]);
      RunKeepsRange(Next(w, steps[0]), steps[1..]);
    }
  }

  /** On every run every turnout known or expected is one that can be commanded. */
  lemma AddressesStayInRange(steps: seq<Step>)
    ensures AddressesInRange(RunFrom(START_UP, steps).decoder)
  {
    RunKeepsRange(START_UP, steps);
  }

  /** Hence on every run every message published names the status topic or the state topic of a turnout
      that a command can set. */
  lemma PublishedTurnoutsAreInRange(steps: seq<Step>)
    ensures forall m | m in RunFrom(START_UP, steps).published ::
              m.topic == STATUS_TOPIC || exists a :: InRange(a) && m.topic == Topic(a)
  {
    RunPublishesKnown(START_UP, steps);
    AddressesStayInRange(steps);
    var w := RunFrom(START_UP, steps);
    forall m | m in w.published ensures m.topic == STATUS_TOPIC || exists a :: InRange(a) && m.topic == Topic(a) {
      if m.topic != STATUS_TOPIC {
        var a :| a in w.decoder.table && m.topic == Topic(a);
        assert InRange(a);
      }
    }
  }

  // --------------------------------------------------- the broker's store

  lemma StepPublishesRetained(w: World, step: Step)
    requires AllRetained(w.published)
    ensures AllRetained(Next(w, step).published)
  {
    match step {
      case CheckRepublish(c) => EncodeStatesAreRetained(KnownStates(w.decoder.table));
      case _ =>
    }
  }

  lemma {:induction false} RunPublishesRetained(w: World, steps: seq<Step>)
    requires AllRetained(w.published)
    ensures AllRetained(RunFrom(w, steps).published)
    decreases |steps|
  {
    if steps != [] {
      StepPublishesRetained(w, steps[0]);
      RunPublishesRetained(Next(w, steps[0]), steps[1..]);
    }
  }

  /** On every run every message is retained, and the retained payloads are exactly the table: a broker
      that honours the flag hands the table to whoever joins. */
  lemma RetainedStoreMirrorsTable(steps: seq<Step>)
    ensures var w := RunFrom(START_UP, steps);
            AllRetained(w.published) && Mirrors(Retained(w.published), w.decoder.table)
  {
    RunPublishesRetained(START_UP, steps);
    WholeLogMirrorsTable(steps);
    RetainedIsReplay(RunFrom(START_UP, steps).published);
  }

  /** So with such a broker a subscriber that joins anywhere - handed the store after k messages, then
      hearing the rest - holds exactly the table from the start, without waiting for a republish. */
  lemma JoiningWithStoreIsEnough(steps: seq<Step>, k: nat)
    requires k <= |RunFrom(START_UP, steps).published|
    ensures var w := RunFrom(START_UP, steps);
            Mirrors(ReplayOnto(Retained(w.published[..k]), w.published[k..]), w.decoder.table)
  {
    RunPublishesRetained(START_UP, steps);
    WholeLogMirrorsTable(steps);
    var log := RunFrom(START_UP, steps).published;
    assert forall m | m in log[..k] :: m in log;
    RetainedIsReplay(log[..k]);
    ReplayAppend(log[..k], log[k..]);
    assert log[..k] + log[k..] == log;
  }
}
