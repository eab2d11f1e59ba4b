/** From LocoNet frames to turnout events: the correlation queue, the table of known positions, and
    the filter that reports a position only when it changes. */
module TurnoutDecoder {
  import opened Basics
  import opened LocoNet

  /** `fifo` holds the addresses whose state was asked for and not yet answered. */
  datatype Decoder = Decoder(table: map<int, Position>, fifo: seq<int>)

  const EMPTY := Decoder(map[], [])

  predicate CanDecode(opcode: Byte)
  {
    opcode == OPC_SW_REQ || opcode == OPC_SW_REP || opcode == OPC_LONG_ACK
  }

  /** The addresses left in the queue after a frame: a state ack claims the oldest. */
  function FifoAfter(fifo: seq<int>, m: Frame): seq<int>
  {
    if IsStateAck(m) && fifo != [] then fifo[1..] else fifo
  }

  /** What a frame reports, if anything, given the queue. Frames under four bytes are dropped
      before any decoder sees them. */
  function Observation(fifo: seq<int>, m: Frame): Option<Turnout>
  {
    if |m| < 4 || !CanDecode(m[0]) then None
    else if m[0] == OPC_LONG_ACK then
      if m[1] != SWITCH_STATE_ACK_CODE || fifo == [] then None else Some(Turnout(fifo[0], PositionFrom(m)))
    else if IsSensorReport(m) then None
    else Some(Turnout(AddressFrom(m), PositionFrom(m)))
  }

  predicate Known(table: map<int, Position>, t: Turnout) { t.address in table && table[t.address] == t.position }

  function TableAfter(table: map<int, Position>, seen: Option<Turnout>): map<int, Position>
  {
    if seen.Some? then table[seen.value.address := seen.value.position] else table
  }

  /** The event handed on for publication: the observation, unless the table already says so. */
  function Emission(d: Decoder, m: Frame): Option<Turnout>
  {
    var seen := Observation(d.fifo, m);
    if seen.Some? && !Known(d.table, seen.value) then seen else None
  }

  function Handle(d: Decoder, m: Frame): Decoder
  {
    Decoder(TableAfter(d.table, Observation(d.fifo, m)), FifoAfter(d.fifo, m))
  }

  // --------------------------------------------------------- traces of frames

  function HandleAll(d: Decoder, frames: seq<Frame>): Decoder
    decreases |frames|
  {
    if frames == [] then d else HandleAll(Handle(d, frames[0]), frames[1..])
  }

  /** The events handed on over a trace, in order. */
  function Emissions(d: Decoder, frames: seq<Frame>): seq<Turnout>
    decreases |frames|
  {
    if frames == [] then []
    else
      var event := Emission(d, frames[0]);
      (if event.Some? then [event.value] else []) + Emissions(Handle(d, frames[0]), frames[1..])
  }

  lemma {:induction false} HandleAllSnoc(d: Decoder, frames: seq<Frame>, m: Frame)
    ensures HandleAll(d, frames + [m]) == Handle(HandleAll(d, frames), m)
    decreases |frames|
  {
    if frames != [] {
      assert (frames + [m])[0] == frames[0] && (frames + [m])[1..] == frames[1..] + [m];
      HandleAllSnoc(Handle(d, frames[0]), frames[1..], m);
    }
  }

  lemma {:induction false} EmissionsSnoc(d: Decoder, frames: seq<Frame>, m: Frame)
    ensures Emissions(d, frames + [m]) == Emissions(d, frames) + Emissions(HandleAll(d, frames), [m])
    decreases |frames|
  {
    if frames == [] {
      assert frames + [m] == [m];
    } else {
      assert (frames + [m])[0] == frames[0] && (frames + [m])[1..] == frames[1..] + [m];
      var d' := Handle(d, frames[0]);
      EmissionsSnoc(d', frames[1..], m);
      var first := if Emission(d, frames[0]).Some? then [Emission(d, frames[0]).value] else [];
      Regroup(first, Emissions(d', frames[1..]), Emissions(HandleAll(d', frames[1..]), [m]));
    }
  }

  /** Positions observed for one address over a trace, in order. */
  function ObservedAt(d: Decoder, frames: seq<Frame>, address: int): seq<Position>
    decreases |frames|
  {
    if frames == [] then []
    else PositionAt(Observation(d.fifo, frames[0]), address) + ObservedAt(Handle(d, frames[0]), frames[1..], address)
  }

  /** The positions of one address in a list of events. */
  function PositionsAt(events: seq<Turnout>, address: int): seq<Position>
  {
    if events == [] then []
    else PositionAt(Some(events[0]), address) + PositionsAt(events[1..], address)
  }

  function PositionAt(event: Option<Turnout>, address: int): seq<Position>
  {
    if event.Some? && event.value.address == address then [event.value.position] else []
  }

  /** A sequence with each element equal to its predecessor left out; `previous` precedes the first. */
  function WithoutRepeats(previous: Option<Position>, s: seq<Position>): seq<Position>
    decreases |s|
  {
    if s == [] then []
    else if previous == Some(s[0]) then WithoutRepeats(previous, s[1..])
    else [s[0]] + WithoutRepeats(Some(s[0]), s[1..])
  }

  function Lookup(table: map<int, Position>, address: int): Option<Position>
  {
    if address in table then Some(table[address]) else None
  }

  lemma EmissionsCons(d: Decoder, frames: seq<Frame>, address: int)
    requires frames != []
    ensures PositionsAt(Emissions(d, frames), address)
            == PositionAt(Emission(d, frames[0]), address)
               + PositionsAt(Emissions(Handle(d, frames[0]), frames[1..]), address)
  {
    var later := Emissions(Handle(d, frames[0]), frames[1..]);
    var event := Emission(d, frames[0]);
    if event.Some? {
      assert ([event.value] + later)[1..] == later;
    } else {
      assert [] + later == later;
    }
  }

  /** Per address, the events on any trace are the observations with consecutive repeats removed. */
  lemma {:induction false} EmissionsAreObservationsWithoutRepeats(d: Decoder, frames: seq<Frame>, address: int)
    ensures PositionsAt(Emissions(d, frames), address)
            == WithoutRepeats(Lookup(d.table, address), ObservedAt(d, frames, address))
    decreases |frames|
  {
    if frames != [] {
      var m := frames[0];
      EmissionsAreObservationsWithoutRepeats(Handle(d, m), frames[1..], address);
      EmissionsCons(d, frames, address);
      var now := PositionAt(Observation(d.fifo, m), address);
      var later := ObservedAt(Handle(d, m), frames[1..], address);
      if now == [] {
        assert now + later == later;
        assert Lookup(Handle(d, m).table, address) == Lookup(d.table, address);
        assert PositionAt(Emission(d, m), address) == [];
      } else {
        assert (now + later)[0] == now[0] && (now + later)[1..] == later;
        assert Lookup(Handle(d, m).table, address) == Some(now[0]);
      }
    }
  }

  /** The table holds, for each address, the last position observed for it. */
  lemma {:induction false} TableIsLastObservation(d: Decoder, frames: seq<Frame>, address: int)
    ensures var seen := ObservedAt(d, frames, address);
            Lookup(HandleAll(d, frames).table, address)
            == if seen == [] then Lookup(d.table, address) else Some(seen[|seen| - 1])
    decreases |frames|
  {
    if frames != [] {
      TableIsLastObservation(Handle(d, frames[0]), frames[1..], address);
    }
  }

  /** Sensor reports, short frames, acks of other commands and acks nobody asked for leave table
      and queue untouched and produce no event; nothing else is silent. */
  lemma SilentFrames(d: Decoder, m: Frame)
    ensures Observation(d.fifo, m) == None
            <==> || |m| < 4
                 || m[0] !in {0xB0, 0xB1, 0xB4}
                 || (m[0] == 0xB1 && (m[2] / 0x40) % 2 == 1)
                 || (m[0] == 0xB4 && (m[1] != 0x3C || d.fifo == []))
    ensures Observation(d.fifo, m) == None ==> Handle(d, m) == d && Emission(d, m) == None
  {
  }

  // -------------------------------------------------- frames read by their bits

  /** The reading of the bus, bit by bit: bit 5 of the third byte is the position, the low seven bits of
      the second and the low four of the third are the address less one. */
  function SaidPosition(m: Frame): Position
    requires |m| >= 3
  {
    if m[2] / 32 % 2 == 1 then Closed else Thrown
  }

  function SaidAddress(m: Frame): int
    requires |m| >= 3
  {
    var low: int, high: int := m[1] % 128, m[2] % 16;
    1 + low + 128 * high
  }

  /** A long ack of a switch command. */
  predicate AcksSwitch(m: Frame) { |m| >= 4 && m[0] == 0xB4 && m[1] == 0x3C }

  /** What a frame reports by itself: a switch request, or a switch report that is not of a sensor. */
  function OwnReport(m: Frame): Option<Turnout>
  {
    if |m| >= 4 && (m[0] == 0xB0 || (m[0] == 0xB1 && m[2] / 64 % 2 == 0))
    then Some(Turnout(SaidAddress(m), SaidPosition(m))) else None
  }

  /** The decoder observes of a switch ack the oldest expected address with the position said, and of
      any other frame what it reports by itself. */
  lemma ObservationIsWhatIsSaid(fifo: seq<int>, m: Frame)
    ensures Observation(fifo, m)
            == if !AcksSwitch(m) then OwnReport(m)
               else if fifo == [] then None else Some(Turnout(fifo[0], SaidPosition(m)))
    ensures FifoAfter(fifo, m) == if AcksSwitch(m) && fifo != [] then fifo[1..] else fifo
  {
    if |m| >= 3 { FieldsOnTheWire(m); }
  }

  /** After any trace, a frame that says a position leaves its turnout in exactly that position: Closed
      if bit 5 is set, Thrown if it is clear. */
  lemma FrameLeavesPosition(d: Decoder, frames: seq<Frame>, m: Frame)
    ensures var before, after := HandleAll(d, frames), HandleAll(d, frames + [m]);
            && (AcksSwitch(m) && before.fifo != [] ==>
                  Lookup(after.table, before.fifo[0]) == Some(SaidPosition(m)))
            && (OwnReport(m).Some? ==> Lookup(after.table, SaidAddress(m)) == Some(SaidPosition(m)))
  {
    HandleAllSnoc(d, frames, m);
    ObservationIsWhatIsSaid(HandleAll(d, frames).fifo, m);
  }

  /** One frame of each kind, in full. */
  lemma FramesInFull(fifo: seq<int>)
    ensures OwnReport([0xB0, 0x00, 0x30, 0x7F]) == Some(Turnout(1, Closed))
    ensures Observation(fifo, [0xB0, 0x00, 0x30, 0x7F]) == Some(Turnout(1, Closed))
    ensures Observation(fifo, [0xB1, 0x00, 0x10, 0x5E]) == Some(Turnout(1, Thrown))
    ensures Observation(fifo, [0xB1, 0x7F, 0x2F, 0x1E]) == Some(Turnout(2048, Closed))
    ensures Observation(fifo, [0xB1, 0x00, 0x70, 0x3E]) == None
    ensures Observation([7] + fifo, [0xB4, 0x3C, 0x00, 0x77]) == Some(Turnout(7, Thrown))
    ensures Observation([7] + fifo, [0xB4, 0x3C, 0x30, 0x47]) == Some(Turnout(7, Closed))
    ensures Observation([7] + fifo, [0xB4, 0x30, 0x00, 0x7B]) == None
  {
  }

  /** Every address ever observed or queued is one the encoders can express. */
  predicate AddressesInRange(d: Decoder)
  {
    (forall a | a in d.table :: InRange(a)) && (forall a | a in d.fifo :: InRange(a))
  }

  lemma HandleKeepsRange(d: Decoder, m: Frame)
    requires AddressesInRange(d)
    ensures AddressesInRange(Handle(d, m))
    ensures var seen := Observation(d.fifo, m); seen.Some? ==> InRange(seen.value.address)
  {
  }

  // ------------------------------------------------------------ known states

  /** The keys in ascending order, as an ordered map is walked. */
  ghost function SortedKeys(keys: set<int>): (s: seq<int>)
    ensures forall k :: k in keys <==> k in s
    ensures forall i, j | 0 <= i < j < |s| :: s[i] < s[j]
    decreases |keys|
  {
    if keys == {} then [] else [Least(keys)] + SortedKeys(keys - {Least(keys)})
  }

  ghost function Least(keys: set<int>): (least: int)
    requires keys != {}
    ensures least in keys && forall k | k in keys :: least <= k
  {
    HasLeast(keys);
    var least :| least in keys && forall k | k in keys :: least <= k;
    least
  }

  lemma SortedKeysStep(keys: set<int>, least: int)
    requires least in keys && forall k | k in keys :: least <= k
    ensures SortedKeys(keys) == [least] + SortedKeys(keys - {least})
  {
  }

  lemma HasLeast(keys: set<int>)
    requires keys != {}
    ensures exists least :: least in keys && forall k | k in keys :: least <= k
  {
    var least := FindLeast(keys);
  }

  lemma {:induction false} FindLeast(keys: set<int>) returns (least: int)
    requires keys != {}
    ensures least in keys && forall k | k in keys :: least <= k
    decreases |keys|
  {
    var one := NonEmpty(keys);
    var rest := keys - {one};
    least := one;
    if rest != {} {
      var other := FindLeast(rest);
      if other < one { least := other; }
    }
    forall k | k in keys ensures least <= k {
      assert k == one || k in rest;
    }
  }

  lemma NonEmpty(keys: set<int>) returns (x: int)
    requires keys != {}
    ensures x in keys
  {
    if !exists k :: k in keys { assert false; }
    x :| x in keys;
  }

  function StatesOf(table: map<int, Position>, keys: seq<int>): seq<Turnout>
    requires forall i | 0 <= i < |keys| :: keys[i] in table
  {
    seq(|keys|, i requires 0 <= i < |keys| => Turnout(keys[i], table[keys[i]]))
  }

  lemma StatesOfSnoc(table: map<int, Position>, keys: seq<int>, k: int)
    requires (forall i | 0 <= i < |keys| :: keys[i] in table) && k in table
    ensures (forall i | 0 <= i < |keys + [k]| :: (keys + [k])[i] in table)
    ensures StatesOf(table, keys + [k]) == StatesOf(table, keys) + [Turnout(k, table[k])]
  {
  }

  ghost function KnownStates(table: map<int, Position>): seq<Turnout>
  {
    StatesOf(table, SortedKeys(table.Keys))
  }

  /** Part way through a walk of the table in key order. */
  ghost predicate Walked(table: map<int, Position>, done: seq<int>, rest: set<int>, states: seq<Turnout>)
  {
    && rest <= table.Keys && SortedKeys(table.Keys) == done + SortedKeys(rest)
    && (forall i | 0 <= i < |done| :: done[i] in table)
    && states == StatesOf(table, done)
  }

  lemma WalkStart(table: map<int, Position>)
    ensures Walked(table, [], table.Keys, [])
  {
  }

  lemma WalkStep(table: map<int, Position>, done: seq<int>, rest: set<int>, states: seq<Turnout>, least: int)
    requires Walked(table, done, rest, states)
    requires least in rest && forall k | k in rest :: least <= k
    ensures Walked(table, done + [least], rest - {least}, states + [Turnout(least, table[least])])
  {
    SortedKeysStep(rest, least);
    Regroup(done, [least], SortedKeys(rest - {least}));
    StatesOfSnoc(table, done, least);
  }

  lemma WalkDone(table: map<int, Position>, done: seq<int>, states: seq<Turnout>)
    requires Walked(table, done, {}, states)
    ensures states == KnownStates(table)
  {
  }

  lemma KnownStatesListTheTable(table: map<int, Position>)
    ensures forall t :: t in KnownStates(table) <==> t.address in table && table[t.address] == t.position
    ensures var s := KnownStates(table); forall i, j | 0 <= i < j < |s| :: s[i].address < s[j].address
  {
    var keys, states := SortedKeys(table.Keys), KnownStates(table);
    forall t: Turnout | t.address in table && table[t.address] == t.position ensures t in states {
      assert t.address in keys;
      var i :| 0 <= i < |keys| && keys[i] == t.address;
      assert states[i] == t;
    }
  }
}
