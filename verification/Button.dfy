/** The setup-mode button: a press of at least three seconds, released for at least 50 ms. */
module Button {
  import opened Time

  const HOLD_DURATION_MS: nat := 3000
  const RELEASE_SETTLE_MS: nat := 50

  datatype Trigger = Trigger(holding: bool, holdStart: nat, releasing: bool, releaseStart: nat)

  const IDLE := Trigger(false, 0, false, 0)

  /** One update: the button level and the one clock reading its path takes. */
  datatype Sample = Sample(active: bool, at: nat)

  predicate Settles(s: Trigger, x: Sample, width: ClockWidth)
  {
    !x.active && s.holding && s.releasing && Elapsed(x.at, s.releaseStart, width) >= RELEASE_SETTLE_MS
  }

  predicate Requests(s: Trigger, x: Sample, width: ClockWidth)
  {
    Settles(s, x, width) && Elapsed(s.releaseStart, s.holdStart, width) >= HOLD_DURATION_MS
  }

  function Next(s: Trigger, x: Sample, width: ClockWidth): Trigger
  {
    if x.active then
      var held := if s.holding then s else s.(holding := true, holdStart := x.at);
      held.(releasing := false)
    else if !s.holding then s
    else if !s.releasing then s.(releasing := true, releaseStart := x.at)
    else if Settles(s, x, width) then s.(holding := false, releasing := false)
    else s
  }

  /** The class of the source: update returns whether setup mode was requested. */
  class ButtonSetupModeTrigger {
    var holding: bool
    var holdStartMs: nat
    var releasing: bool
    var releaseStartMs: nat
    var requests: nat  // calls of the request store

    function State(): Trigger
      reads this
    {
      Trigger(holding, holdStartMs, releasing, releaseStartMs)
    }

    constructor ()
      ensures State() == IDLE && requests == 0
    {
      holding, holdStartMs, releasing, releaseStartMs, requests := false, 0, false, 0, 0;
    }

    method Update(active: bool, now: nat) returns (requested: bool)
      modifies this
      ensures State() == Next(old(State()), Sample(active, now), Bits32)
      ensures requested == Requests(old(State()), Sample(active, now), Bits32)
      ensures requests == old(requests) + if requested then 1 else 0
    {
      if active {
        requested := HandleActive(now);
      } else {
        requested := HandleInactive(now);
      }
    }

    method HandleActive(now: nat) returns (requested: bool)
      modifies this
      ensures State() == Next(old(State()), Sample(true, now), Bits32)
      ensures !requested && requests == old(requests)
    {
      if !holding {
        holding := true;
        holdStartMs := now;
      }
      releasing := false;
      return false;
    }

    method HandleInactive(now: nat) returns (requested: bool)
      modifies this
      ensures State() == Next(old(State()), Sample(false, now), Bits32)
      ensures requested == Requests(old(State()), Sample(false, now), Bits32)
      ensures requests == old(requests) + if requested then 1 else 0
    {
      if !holding {
        return false;
      }
      if !releasing {
        releasing := true;
        releaseStartMs := now;
        return false;
      }
      requested := FinishReleaseIfSettled(now);
    }

    method FinishReleaseIfSettled(now: nat) returns (requested: bool)
      requires holding && releasing
      modifies this
      ensures State() == Next(old(State()), Sample(false, now), Bits32)
      ensures requested == Requests(old(State()), Sample(false, now), Bits32)
      ensures requests == old(requests) + if requested then 1 else 0
    {
      if Elapsed(now, releaseStartMs, Bits32) < RELEASE_SETTLE_MS {
        return false;
      }
      var heldFor := Elapsed(releaseStartMs, holdStartMs, Bits32);
      holding := false;
      releasing := false;
      if heldFor >= HOLD_DURATION_MS {
        requests := requests + 1;
        return true;
      }
      return false;
    }
  }

  // ------------------------------------------------- traces of samples

  function StateAfter(trace: seq<Sample>, width: ClockWidth): Trigger
  {
    if trace == [] then IDLE else Next(StateAfter(trace[..|trace| - 1], width), trace[|trace| - 1], width)
  }

  predicate RequestsAt(trace: seq<Sample>, i: nat, width: ClockWidth)
    requires i < |trace|
  {
    Requests(StateAfter(trace[..i], width), trace[i], width)
  }

  // The trace-level vocabulary: which samples are inactive in a row, when such a row has lasted
  // 50 ms, and where the press it ends began.

  /** First sample of the unbroken inactive row that contains sample i. */
  function RowStart(trace: seq<Sample>, i: nat): (s: nat)
    requires i < |trace| && !trace[i].active
    ensures s <= i && forall k | s <= k <= i :: !trace[k].active
    ensures s > 0 ==> trace[s - 1].active
  {
    if i > 0 && !trace[i - 1].active then RowStart(trace, i - 1) else i
  }

  /** Sample i is inactive, has an active sample before its row, and its row spans 50 ms there. */
  predicate Settled(trace: seq<Sample>, i: nat, width: ClockWidth)
    requires i < |trace|
  {
    && !trace[i].active
    && RowStart(trace, i) > 0
    && RowStart(trace, i) < i
    && Elapsed(trace[i].at, trace[RowStart(trace, i)].at, width) >= 50
  }

  /** Some sample from `from` up to but not including `to` is settled. */
  predicate SettledWithin(trace: seq<Sample>, from: nat, to: nat, width: ClockWidth)
    requires to <= |trace|
  {
    exists k | from <= k < to :: Settled(trace, k, width)
  }

  /** h is where the press going on just before sample `end` began: the first active sample since
      the last settled one. Bounces in between do not move it. */
  ghost predicate PressBegan(trace: seq<Sample>, h: nat, end: nat, width: ClockWidth)
    requires end <= |trace|
  {
    && h < end && trace[h].active
    && !SettledWithin(trace, h, end, width)
    && forall a | 0 <= a < h && trace[a].active :: SettledWithin(trace, a, h, width)
  }

  lemma SettledWithinStep(trace: seq<Sample>, from: nat, to: nat, width: ClockWidth)
    requires from <= to < |trace|
    ensures SettledWithin(trace, from, to + 1, width) <==> SettledWithin(trace, from, to, width) || Settled(trace, to, width)
  {
  }

  /** What the fields mean after any prefix of any trace. */
  ghost predicate Describes(s: Trigger, trace: seq<Sample>, end: nat, width: ClockWidth)
    requires end <= |trace|
  {
    && (s.holding ==> exists h: nat :: PressBegan(trace, h, end, width) && trace[h].at == s.holdStart)
    && (!s.holding ==> !s.releasing && forall a | 0 <= a < end && trace[a].active :: SettledWithin(trace, a, end, width))
    && (s.releasing <==> s.holding && end > 0 && !trace[end - 1].active)
    && (s.releasing ==> RowStart(trace, end - 1) > 0 && s.releaseStart == trace[RowStart(trace, end - 1)].at)
  }

  lemma {:induction false} StateDescribesTrace(trace: seq<Sample>, end: nat, width: ClockWidth)
    requires end <= |trace|
    ensures Describes(StateAfter(trace[..end], width), trace, end, width)
  {
    if end > 0 {
      StateDescribesTrace(trace, end - 1, width);
      assert trace[..end][..end - 1] == trace[..end - 1];
      var s, x := StateAfter(trace[..end - 1], width), trace[end - 1];
      if x.active {
        ActiveStep(s, trace, end - 1, width);
      } else if s.holding {
        HeldInactiveStep(s, trace, end - 1, width);
      } else {
        IdleInactiveStep(s, trace, end - 1, width);
      }
    }
  }

  lemma ActiveStep(s: Trigger, trace: seq<Sample>, i: nat, width: ClockWidth)
    requires i < |trace| && trace[i].active && Describes(s, trace, i, width)
    ensures Describes(Next(s, trace[i], width), trace, i + 1, width)
  {
  }

  /** While the button is held, an inactive sample is settled exactly when the code says so. */
  lemma HeldInactiveStep(s: Trigger, trace: seq<Sample>, i: nat, width: ClockWidth)
    requires i < |trace| && !trace[i].active && s.holding && Describes(s, trace, i, width)
    ensures Settles(s, trace[i], width) <==> Settled(trace, i, width)
    ensures Describes(Next(s, trace[i], width), trace, i + 1, width)
  {
    var h: nat :| PressBegan(trace, h, i, width) && trace[h].at == s.holdStart;
    assert i > 0;
    if s.releasing {
      assert RowStart(trace, i) == RowStart(trace, i - 1);
    } else {
      assert RowStart(trace, i) == i;
    }
    SettledWithinStep(trace, h, i, width);
    if Settles(s, trace[i], width) {
      forall a | 0 <= a < i + 1 && trace[a].active ensures SettledWithin(trace, a, i + 1, width) {
        SettledWithinStep(trace, a, i, width);
      }
    } else {
      assert PressBegan(trace, h, i + 1, width);
    }
  }

  lemma IdleInactiveStep(s: Trigger, trace: seq<Sample>, i: nat, width: ClockWidth)
    requires i < |trace| && !trace[i].active && !s.holding && Describes(s, trace, i, width)
    ensures Describes(Next(s, trace[i], width), trace, i + 1, width)
  {
  }

  /** The press that sample i settles: i is settled for the first time since the press began at h,
      and from h to the start of the final inactive row at least three seconds passed. */
  ghost predicate LongPressEndsAt(trace: seq<Sample>, h: nat, i: nat, width: ClockWidth)
    requires i < |trace|
  {
    && PressBegan(trace, h, i, width)
    && Settled(trace, i, width)
    && Elapsed(trace[RowStart(trace, i)].at, trace[h].at, width) >= 3000
  }

  /** For every trace, an update requests setup mode exactly when it ends a long press. */
  lemma RequestsExactlyAtLongPressEnd(trace: seq<Sample>, i: nat, width: ClockWidth)
    requires i < |trace|
    ensures RequestsAt(trace, i, width) <==> exists h: nat :: LongPressEndsAt(trace, h, i, width)
  {
    StateDescribesTrace(trace, i, width);
    var s := StateAfter(trace[..i], width);
    if s.holding && !trace[i].active {
      HeldInactiveStep(s, trace, i, width);
      var h: nat :| PressBegan(trace, h, i, width) && trace[h].at == s.holdStart;
      assert s.releasing ==> RowStart(trace, i) == RowStart(trace, i - 1);
      if RequestsAt(trace, i, width) {
        assert LongPressEndsAt(trace, h, i, width);
      }
      forall g: nat | PressBegan(trace, g, i, width) ensures g == h {
        PressIsUnique(trace, g, h, i, width);
      }
    } else {
      forall h: nat ensures !LongPressEndsAt(trace, h, i, width) {
        if h < i && trace[h].active && !s.holding { assert SettledWithin(trace, h, i, width); }
      }
    }
  }

  lemma PressIsUnique(trace: seq<Sample>, g: nat, h: nat, end: nat, width: ClockWidth)
    requires end <= |trace| && PressBegan(trace, g, end, width) && PressBegan(trace, h, end, width)
    ensures g == h
  {
  }

  /** One request per press: between two requests the button was settled and pressed again. */
  lemma OneRequestPerPress(trace: seq<Sample>, i: nat, k: nat, width: ClockWidth)
    requires i < k < |trace| && RequestsAt(trace, i, width) && RequestsAt(trace, k, width)
    ensures exists h: nat | i < h < k :: LongPressEndsAt(trace, h, k, width)
  {
    RequestsExactlyAtLongPressEnd(trace, i, width);
    RequestsExactlyAtLongPressEnd(trace, k, width);
    var h: nat :| LongPressEndsAt(trace, h, k, width);
    assert Settled(trace, i, width);
    if h <= i { assert false; }
  }

  // ----------------------------------------------------- the 32-bit clock

  /** Samples in time order, each less than 2^32 - 50 ms after the one before. */
  predicate Brisk(trace: seq<Sample>)
  {
    && (forall i, j | 0 <= i < j < |trace| :: trace[i].at <= trace[j].at)
    && (forall i | 0 < i < |trace| :: SoonAfter(trace, i))
  }

  predicate SoonAfter(trace: seq<Sample>, i: nat)
    requires 0 < i < |trace|
  {
    trace[i].at - trace[i - 1].at < CLOCK_MODULUS - RELEASE_SETTLE_MS
  }

  /** On such traces the fields evolve as on an endless clock ... */
  lemma {:induction false} WrapIsInvisibleInState(trace: seq<Sample>, i: nat)
    requires Brisk(trace) && i <= |trace|
    ensures StateAfter(trace[..i], Bits32) == StateAfter(trace[..i], Unbounded)
    ensures var s := StateAfter(trace[..i], Unbounded);
            && (s.holding ==> i > 0 && s.holdStart <= trace[i - 1].at)
            && (s.releasing ==> s.holding && s.holdStart <= s.releaseStart <= trace[i - 1].at)
            && (s.releasing ==> trace[i - 1].at - s.releaseStart < RELEASE_SETTLE_MS)
    ensures i < |trace| ==> Settles(StateAfter(trace[..i], Bits32), trace[i], Bits32)
                            == Settles(StateAfter(trace[..i], Bits32), trace[i], Unbounded)
  {
    if i > 0 {
      WrapIsInvisibleInState(trace, i - 1);
      assert trace[..i][..i - 1] == trace[..i - 1];
      assert i > 1 ==> trace[i - 2].at <= trace[i - 1].at;
    }
    var s := StateAfter(trace[..i], Unbounded);
    assert s.releasing ==> i > 0 && s.releaseStart <= trace[i - 1].at < s.releaseStart + RELEASE_SETTLE_MS;
    if 0 < i < |trace| && s.releasing {
      assert trace[i - 1].at <= trace[i].at;
      assert SoonAfter(trace, i);
      ElapsedBelowModulus(trace[i].at, s.releaseStart);
    }
  }

  /** At the end of a long press the fields hold the samples it is measured between. */
  lemma FieldsAtLongPressEnd(trace: seq<Sample>, h: nat, i: nat, width: ClockWidth)
    requires i < |trace| && LongPressEndsAt(trace, h, i, width)
    ensures var s := StateAfter(trace[..i], width);
            s.holdStart == trace[h].at && s.releaseStart == trace[RowStart(trace, i)].at
  {
    StateDescribesTrace(trace, i, width);
    var s := StateAfter(trace[..i], width);
    if !s.holding { assert false; }
    var g: nat :| PressBegan(trace, g, i, width) && trace[g].at == s.holdStart;
    PressIsUnique(trace, g, h, i, width);
    assert RowStart(trace, i) == RowStart(trace, i - 1);
  }

  /** A press of this many true milliseconds still looks three seconds long on a counter that wraps. */
  predicate LooksLong(held: int) { held < 0x1_0000_0000 || held % 0x1_0000_0000 >= 3000 }

  lemma MissedInFields(trace: seq<Sample>, i: nat)
    requires Brisk(trace) && i < |trace|
    ensures var s := StateAfter(trace[..i], Unbounded);
            && (RequestsAt(trace, i, Bits32) ==> RequestsAt(trace, i, Unbounded))
            && (RequestsAt(trace, i, Unbounded) ==>
                  (RequestsAt(trace, i, Bits32) <==> LooksLong(s.releaseStart - s.holdStart)))
  {
    WrapIsInvisibleInState(trace, i);
  }

  lemma LongPressEndRequests(trace: seq<Sample>, h: nat, i: nat, width: ClockWidth)
    requires i < |trace| && LongPressEndsAt(trace, h, i, width)
    ensures RequestsAt(trace, i, width)
  {
    RequestsExactlyAtLongPressEnd(trace, i, width);
  }

  lemma MissedIffHeld(trace: seq<Sample>, h: nat, i: nat)
    requires Brisk(trace) && i < |trace| && LongPressEndsAt(trace, h, i, Unbounded)
    ensures RequestsAt(trace, i, Unbounded)
    ensures RequestsAt(trace, i, Bits32) <==> LooksLong(trace[RowStart(trace, i)].at - trace[h].at)
  {
    MissedInFields(trace, i);
    LongPressEndRequests(trace, h, i, Unbounded);
    FieldsAtLongPressEnd(trace, h, i, Unbounded);
  }

  ghost predicate LongPressSurvivesWrap(trace: seq<Sample>, h: nat, i: nat)
    requires i < |trace|
  {
    LongPressEndsAt(trace, h, i, Unbounded) && LooksLong(trace[RowStart(trace, i)].at - trace[h].at)
  }

  lemma RequestSurvives(trace: seq<Sample>, i: nat) returns (h: nat)
    requires Brisk(trace) && i < |trace| && RequestsAt(trace, i, Bits32)
    ensures LongPressSurvivesWrap(trace, h, i)
  {
    MissedInFields(trace, i);
    RequestsExactlyAtLongPressEnd(trace, i, Unbounded);
    h :| LongPressEndsAt(trace, h, i, Unbounded);
    MissedIffHeld(trace, h, i);
  }

  /** ... but how long a press was held is only known modulo 2^32. Where the endless clock requests at
      the end of every long press, the 32-bit clock misses exactly the presses that lasted 2^32 ms or
      more of which, after whole wraps, under three seconds remain; and it never adds a request. */
  lemma LongPressMissedIff(trace: seq<Sample>, i: nat)
    requires Brisk(trace) && i < |trace|
    ensures RequestsAt(trace, i, Bits32) <==> exists h: nat :: LongPressSurvivesWrap(trace, h, i)
  {
    if RequestsAt(trace, i, Bits32) {
      var h := RequestSurvives(trace, i);
    }
    if h: nat :| LongPressSurvivesWrap(trace, h, i) {
      MissedIffHeld(trace, h, i);
    }
  }

  /** A press held for exactly one turn of the counter, watched often enough. */
  const HELD_ONE_WRAP: seq<Sample> :=
    [Sample(true, 0), Sample(true, 0x8000_0000), Sample(false, 0x1_0000_0000), Sample(false, 0x1_0000_0032)]

  lemma HeldOneWrapState(width: ClockWidth)
    ensures StateAfter(HELD_ONE_WRAP[..3], width) == Trigger(true, 0, true, 0x1_0000_0000)
  {
    var trace := HELD_ONE_WRAP[..3];
    assert trace[..2] == HELD_ONE_WRAP[..2] && trace[..2][..1] == HELD_ONE_WRAP[..1];
    assert StateAfter(trace[..2][..1], width) == Trigger(true, 0, false, 0);
    assert StateAfter(trace[..2], width) == Trigger(true, 0, false, 0);
  }

  lemma HeldOneWrapIsBrisk()
    ensures Brisk(HELD_ONE_WRAP)
  {
    var trace := HELD_ONE_WRAP;
    assert trace[0].at <= trace[1].at <= trace[2].at <= trace[3].at;
    forall i, j | 0 <= i < j < |trace| ensures trace[i].at <= trace[j].at {
      assert (i == 0 || i == 1 || i == 2) && (j == 1 || j == 2 || j == 3);
    }
    assert SoonAfter(trace, 1) && SoonAfter(trace, 2) && SoonAfter(trace, 3);
  }

  lemma LongPressCanBeMissed()
    ensures Brisk(HELD_ONE_WRAP)
    ensures RequestsAt(HELD_ONE_WRAP, 3, Unbounded) && !RequestsAt(HELD_ONE_WRAP, 3, Bits32)
  {
    HeldOneWrapIsBrisk();
    HeldOneWrapState(Unbounded);
    HeldOneWrapState(Bits32);
  }
}
