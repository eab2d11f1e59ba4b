/** The MQTT side: topics and payloads printed for turnout states, and the parser of set commands. */
module Mqtt {
  import opened Basics
  import opened LocoNet
  import Codec
  import opened TurnoutDecoder

  datatype MqttMessage = MqttMessage(topic: string, payload: string, retained: bool)
  datatype IncomingMqttMessage = IncomingMqttMessage(topic: string, payload: string)

  // --------------------------------------------------------------- decimals

  predicate IsDigit(c: char) { '0' <= c <= '9' }

  predicate AllDigits(s: string) { forall c | c in s :: IsDigit(c) }

  function Decimal(n: nat): (s: string)
    ensures |s| > 0
  {
    (if n < 10 then "" else Decimal(n / 10)) + ["0123456789"[n % 10]]
  }

  function DecimalValue(s: string): int
    requires AllDigits(s)
  {
    if s == "" then 0 else 10 * DecimalValue(s[..|s| - 1]) + (s[|s| - 1] as int - '0' as int)
  }

  lemma {:induction false} DecimalRoundTrip(n: nat)
    ensures AllDigits(Decimal(n)) && DecimalValue(Decimal(n)) == n
    ensures n < 10000 ==> |Decimal(n)| <= 4
  {
    DecimalLength(n);
    DecimalStep(n);
    if n < 10 {
      DigitsSnoc("", n);
    } else {
      DecimalRoundTrip(n / 10);
      DigitsSnoc(Decimal(n / 10), n % 10);
      TenTimes(n);
    }
  }

  lemma DecimalStep(n: nat)
    ensures Decimal(n) == (if n < 10 then "" else Decimal(n / 10)) + ["0123456789"[n % 10]]
  {
  }

  lemma TenTimes(n: nat)
    ensures 10 * (n / 10) + n % 10 == n
  {
  }

  lemma DigitsSnoc(s: string, d: nat)
    requires AllDigits(s) && d < 10
    ensures AllDigits(s + ["0123456789"[d]])
    ensures DecimalValue(s + ["0123456789"[d]]) == 10 * DecimalValue(s) + d
  {
  }

  lemma DecimalLength(n: nat)
    ensures n < 10000 ==> |Decimal(n)| <= 4
  {
    if n < 10000 {
      assert n / 10 < 1000 && n / 10 / 10 < 100 && n / 10 / 10 / 10 < 10;
      assert |Decimal(n / 10 / 10 / 10)| == 1;
      assert |Decimal(n / 10 / 10)| <= 2;
      assert |Decimal(n / 10)| <= 3;
    }
  }

  /** `std::to_string` of an int. */
  function IntText(n: int): string { if n < 0 then "-" + Decimal(-n) else Decimal(n) }

  lemma IntTextInjective(m: int, n: int)
    requires IntText(m) == IntText(n)
    ensures m == n
  {
    DecimalRoundTrip(if m < 0 then -m else m);
    DecimalRoundTrip(if n < 0 then -n else n);
    if m < 0 && n < 0 {
      assert IntText(m)[1..] == Decimal(-m) && IntText(n)[1..] == Decimal(-n);
    } else {
      assert IntText(m)[0] == IntText(n)[0];
      assert m >= 0 ==> Decimal(m)[0] in Decimal(m);
      assert n >= 0 ==> Decimal(n)[0] in Decimal(n);
    }
  }

  // --------------------------------------------------------- state messages

  const STATE_PREFIX: string := "loconet/turnout/"
  const STATUS_TOPIC: string := "loco2mqtt/jmri/status"

  function Topic(address: int): string { STATE_PREFIX + IntText(address) + "/state" }

  function Payload(position: Position): string { if position == Closed then "CLOSED" else "THROWN" }

  function EncodeState(t: Turnout): MqttMessage { MqttMessage(Topic(t.address), Payload(t.position), true) }

  function EncodeStates(states: seq<Turnout>): seq<MqttMessage>
  {
    seq(|states|, i requires 0 <= i < |states| => EncodeState(states[i]))
  }

  lemma EncodeStatesAppend(a: seq<Turnout>, b: seq<Turnout>)
    ensures EncodeStates(a + b) == EncodeStates(a) + EncodeStates(b)
  {
    var all, parts := EncodeStates(a + b), EncodeStates(a) + EncodeStates(b);
    assert |all| == |parts|;
    forall i | 0 <= i < |all| ensures all[i] == parts[i] {
      assert (a + b)[i] == if i < |a| then a[i] else b[i - |a|];
    }
  }

  /** Publishing the next state of a list extends the published prefix by one. */
  lemma PublishNext(log: seq<MqttMessage>, states: seq<Turnout>, i: nat)
    requires i < |states|
    ensures log + EncodeStates(states[..i]) + [EncodeState(states[i])] == log + EncodeStates(states[..i + 1])
  {
  }

  lemma MiddleInjective(prefix: string, x: string, y: string, suffix: string)
    requires prefix + x + suffix == prefix + y + suffix
    ensures x == y
  {
    var whole := prefix + x + suffix;
    assert |x| == |y|;
    assert x == whole[|prefix|..|prefix| + |x|];
    assert y == (prefix + y + suffix)[|prefix|..|prefix| + |y|];
  }

  lemma TopicInjective(a: int, b: int)
    ensures Topic(a) == Topic(b) ==> a == b
    ensures Topic(a) != STATUS_TOPIC
  {
    if Topic(a) == Topic(b) {
      MiddleInjective(STATE_PREFIX, IntText(a), IntText(b), "/state");
      IntTextInjective(a, b);
    }
    NotStatus(IntText(a) + "/state");
    Regroup(STATE_PREFIX, IntText(a), "/state");
  }

  lemma NotStatus(tail: string)
    ensures STATE_PREFIX + tail != STATUS_TOPIC
  {
    assert (STATE_PREFIX + tail)[4] == 'n' && STATUS_TOPIC[4] == '2';
  }

  // ------------------------------------------------------ replaying the log

  /** What a subscriber that keeps the last payload per topic knows after a log. */
  function Replay(log: seq<MqttMessage>): map<string, string>
  {
    if log == [] then map[]
    else Replay(log[..|log| - 1])[log[|log| - 1].topic := log[|log| - 1].payload]
  }

  lemma ReplaySnoc(log: seq<MqttMessage>, m: MqttMessage)
    ensures Replay(log + [m]) == Replay(log)[m.topic := m.payload]
  {
  }

  /** What a broker keeps for those who join later: the last retained payload per topic. A message that
      is not retained leaves it alone. */
  function Retained(log: seq<MqttMessage>): map<string, string>
  {
    if log == [] then map[]
    else
      var before, m := Retained(log[..|log| - 1]), log[|log| - 1];
      if m.retained then before[m.topic := m.payload] else before
  }

  predicate AllRetained(log: seq<MqttMessage>) { forall m | m in log :: m.retained }

  lemma {:induction false} RetainedIsReplay(log: seq<MqttMessage>)
    requires AllRetained(log)
    ensures Retained(log) == Replay(log)
  {
    if log != [] {
      var n := |log| - 1;
      assert log[n] in log;
      RetainedIsReplay(log[..n]);
    }
  }

  /** What a subscriber knows who was handed `held` and then hears a log. */
  function ReplayOnto(held: map<string, string>, log: seq<MqttMessage>): map<string, string>
  {
    if log == [] then held
    else ReplayOnto(held, log[..|log| - 1])[log[|log| - 1].topic := log[|log| - 1].payload]
  }

  lemma {:induction false} ReplayAppend(a: seq<MqttMessage>, b: seq<MqttMessage>)
    ensures Replay(a + b) == ReplayOnto(Replay(a), b)
    decreases |b|
  {
    if b == [] {
      assert a + b == a;
    } else {
      var n := |b| - 1;
      assert a + b == (a + b[..n]) + [b[n]];
      ReplaySnoc(a + b[..n], b[n]);
      ReplayAppend(a, b[..n]);
    }
  }

  /** The state messages, in full. */
  lemma StatesInFull(address: nat)
    ensures EncodeState(Turnout(address, Closed))
            == MqttMessage("loconet/turnout/" + Decimal(address) + "/state", "CLOSED", true)
    ensures EncodeState(Turnout(address, Thrown))
            == MqttMessage("loconet/turnout/" + Decimal(address) + "/state", "THROWN", true)
    ensures Decimal(7) == "7" && Decimal(40) == "40"
  {
  }

  lemma EncodeStatesAreRetained(states: seq<Turnout>)
    ensures AllRetained(EncodeStates(states))
  {
  }

  /** No topic in r but the status topic and those of turnouts in the table. */
  ghost predicate Covered(r: map<string, string>, table: map<int, Position>)
  {
    forall topic | topic in r :: topic == STATUS_TOPIC || exists a :: a in table && topic == Topic(a)
  }

  ghost predicate Shows(r: map<string, string>, table: map<int, Position>, a: int)
  {
    a in table && Topic(a) in r && r[Topic(a)] == Payload(table[a])
  }

  /** r is exactly the table, topic by topic, besides the status topic. */
  ghost predicate Mirrors(r: map<string, string>, table: map<int, Position>)
  {
    Covered(r, table) && forall a | a in table :: Shows(r, table, a)
  }

  lemma PublishingAChangeKeepsMirror(log: seq<MqttMessage>, table: map<int, Position>, t: Turnout)
    requires Mirrors(Replay(log), table)
    ensures Mirrors(Replay(log + [EncodeState(t)]), table[t.address := t.position])
  {
    ReplaySnoc(log, EncodeState(t));
    var table' := table[t.address := t.position];
    var r, r' := Replay(log), Replay(log + [EncodeState(t)]);
    forall a | a in table' ensures Shows(r', table', a) {
      TopicInjective(a, t.address);
      assert a != t.address ==> Shows(r, table, a);
    }
    forall topic | topic in r' ensures topic == STATUS_TOPIC || exists a :: a in table' && topic == Topic(a) {
      if topic == Topic(t.address) {
        assert t.address in table';
      } else if topic != STATUS_TOPIC {
        var a :| a in table && topic == Topic(a);
        assert a in table';
      }
    }
  }

  lemma PublishingStatusKeepsMirror(log: seq<MqttMessage>, table: map<int, Position>, m: MqttMessage)
    requires m.topic == STATUS_TOPIC && Mirrors(Replay(log), table)
    ensures Mirrors(Replay(log + [m]), table)
  {
  }

  /** Publishing one state that agrees with the table: covered stays covered, and it shows. */
  lemma PublishingAKnownState(log: seq<MqttMessage>, table: map<int, Position>, t: Turnout)
    requires Covered(Replay(log), table) && Known(table, t)
    ensures Covered(Replay(log + [EncodeState(t)]), table)
    ensures Shows(Replay(log + [EncodeState(t)]), table, t.address)
    ensures forall a | a in table && Shows(Replay(log), table, a) :: Shows(Replay(log + [EncodeState(t)]), table, a)
  {
    ReplaySnoc(log, EncodeState(t));
    forall a | a in table && Shows(Replay(log), table, a) ensures Shows(Replay(log + [EncodeState(t)]), table, a) {
      TopicInjective(a, t.address);
    }
  }

  lemma EncodeStatesCons(log: seq<MqttMessage>, states: seq<Turnout>)
    requires states != []
    ensures log + EncodeStates(states) == log + [EncodeState(states[0])] + EncodeStates(states[1..])
  {
    var head, rest := states[0], states[1..];
    assert states == [head] + rest;
    EncodeStatesAppend([head], rest);
    OneState(head);
    Regroup(log, [EncodeState(head)], EncodeStates(rest));
  }

  lemma OneState(t: Turnout)
    ensures EncodeStates([t]) == [EncodeState(t)]
  {
  }

  lemma {:induction false} PublishingStates(log: seq<MqttMessage>, table: map<int, Position>, states: seq<Turnout>)
    requires Covered(Replay(log), table)
    requires forall t | t in states :: Known(table, t)
    ensures Covered(Replay(log + EncodeStates(states)), table)
    ensures forall a | Shows(Replay(log), table, a) :: Shows(Replay(log + EncodeStates(states)), table, a)
    ensures forall t | t in states :: Shows(Replay(log + EncodeStates(states)), table, t.address)
    decreases |states|
  {
    if states == [] {
      assert log + EncodeStates(states) == log;
    } else {
      var head, rest := states[0], states[1..];
      assert Known(table, head);
      PublishingAKnownState(log, table, head);
      var next := log + [EncodeState(head)];
      PublishingStates(next, table, rest);
      EncodeStatesCons(log, states);
      forall t | t in states ensures Shows(Replay(log + EncodeStates(states)), table, t.address) {
        assert t == head || t in rest;
      }
    }
  }

  /** A full republish turns any log about known turnouts into an exact mirror, whatever stale
      payloads the log held. */
  lemma RepublishMirrors(log: seq<MqttMessage>, table: map<int, Position>)
    requires Covered(Replay(log), table)
    ensures Mirrors(Replay(log + EncodeStates(KnownStates(table))), table)
  {
    KnownStatesListTheTable(table);
    PublishingStates(log, table, KnownStates(table));
    forall a | a in table ensures Shows(Replay(log + EncodeStates(KnownStates(table))), table, a) {
      assert Turnout(a, table[a]) in KnownStates(table);
    }
  }

  // ---------------------------------------------------------- set commands

  /** Index of the first slash at or after `from`. */
  function FindSlash(topic: string, from: nat): (r: Option<nat>)
    requires from <= |topic|
    ensures r.Some? ==> SlashAt(topic, from, r.value)
    decreases |topic| - from
  {
    if from == |topic| then None
    else if topic[from] == '/' then Some(from)
    else FindSlash(topic, from + 1)
  }

  predicate SlashAt(topic: string, from: nat, k: nat)
  {
    from <= k < |topic| && topic[k] == '/' && '/' !in topic[from..k]
  }

  /** The second and third segments of a topic with at least three slashes. */
  function ParseDeviceTypeAndAddress(topic: string): Option<(string, string)>
  {
    var first := FindSlash(topic, 0);
    if first.None? then None else
    var second := FindSlash(topic, first.value + 1);
    if second.None? then None else
    var third := FindSlash(topic, second.value + 1);
    if third.None? then None
    else Some((topic[first.value + 1..second.value], topic[second.value + 1..third.value]))
  }

  predicate IsValidAddressShape(address: string) { address != "" && |address| <= 4 && AllDigits(address) }

  function ParseAddress(address: string): Option<int>
  {
    if !IsValidAddressShape(address) then None
    else if InRange(DecimalValue(address)) then Some(DecimalValue(address)) else None
  }

  function ParsePosition(payload: string): Option<Position>
  {
    if payload == "CLOSED" then Some(Closed) else if payload == "THROWN" then Some(Thrown) else None
  }

  function DecodeCommand(address: string, payload: string): Option<Turnout>
  {
    var a, p := ParseAddress(address), ParsePosition(payload);
    if a.None? || p.None? then None else Some(Turnout(a.value, p.value))
  }

  /** The command an incoming message carries, if any. */
  function CommandOf(message: IncomingMqttMessage): Option<Turnout>
  {
    var parsed := ParseDeviceTypeAndAddress(message.topic);
    if parsed.None? || parsed.value.0 != "turnout" then None
    else DecodeCommand(parsed.value.1, message.payload)
  }

  /** topic is prefix/device/address/rest with no slash in the first three parts. */
  predicate HasSegments(topic: string, prefix: string, device: string, address: string, rest: string)
  {
    && '/' !in prefix && '/' !in device && '/' !in address
    && topic == prefix + "/" + device + "/" + address + "/" + rest
  }

  lemma {:induction false} FindSlashFinds(topic: string, from: nat, k: nat)
    requires SlashAt(topic, from, k)
    ensures FindSlash(topic, from) == Some(k)
    decreases k - from
  {
    if from < k {
      assert topic[from] in topic[from..k];
      assert topic[from + 1..k] == topic[from..k][1..];
      FindSlashFinds(topic, from + 1, k);
    }
  }

  lemma SegmentOffsets(topic: string, prefix: string, device: string, address: string, rest: string)
    requires HasSegments(topic, prefix, device, address, rest)
    ensures var first := |prefix|;
            var second := first + 1 + |device|;
            var third := second + 1 + |address|;
            && SlashAt(topic, 0, first) && SlashAt(topic, first + 1, second) && SlashAt(topic, second + 1, third)
            && topic[first + 1..second] == device && topic[second + 1..third] == address
  {
  }

  lemma ParseFindsSegments(topic: string, prefix: string, device: string, address: string, rest: string)
    requires HasSegments(topic, prefix, device, address, rest)
    ensures ParseDeviceTypeAndAddress(topic) == Some((device, address))
  {
    SegmentOffsets(topic, prefix, device, address, rest);
    var first := |prefix|;
    var second := first + 1 + |device|;
    FindSlashFinds(topic, 0, first);
    FindSlashFinds(topic, first + 1, second);
    FindSlashFinds(topic, second + 1, second + 1 + |address|);
  }

  lemma Splice(topic: string, a: nat, b: nat, c: nat)
    requires SlashAt(topic, 0, a) && SlashAt(topic, a + 1, b) && SlashAt(topic, b + 1, c)
    ensures HasSegments(topic, topic[0..a], topic[a + 1..b], topic[b + 1..c], topic[c + 1..])
  {
  }

  lemma ParseGivesSegments(topic: string)
    requires ParseDeviceTypeAndAddress(topic).Some?
    ensures var (device, address) := ParseDeviceTypeAndAddress(topic).value;
            exists prefix, rest :: HasSegments(topic, prefix, device, address, rest)
  {
    var first := FindSlash(topic, 0).value;
    var second := FindSlash(topic, first + 1).value;
    Splice(topic, first, second, FindSlash(topic, second + 1).value);
  }

  lemma SegmentsGiveCommand(message: IncomingMqttMessage, prefix: string, digits: string, rest: string, t: Turnout)
    requires HasSegments(message.topic, prefix, "turnout", digits, rest)
    requires IsValidAddressShape(digits) && DecimalValue(digits) == t.address && InRange(t.address)
    requires message.payload == Payload(t.position)
    ensures CommandOf(message) == Some(t)
  {
    ParseFindsSegments(message.topic, prefix, "turnout", digits, rest);
    assert DecodeCommand(digits, message.payload) == Some(t);
  }

  /** A message is taken as the command t exactly when its topic has `turnout` as second segment and
      one to four digits of value t.address (1 to 2048) as third, closed by a slash, and its payload
      is the word for t.position. */
  lemma CommandAcceptedIff(message: IncomingMqttMessage, t: Turnout)
    ensures CommandOf(message) == Some(t)
            <==> exists prefix, digits, rest ::
                   && HasSegments(message.topic, prefix, "turnout", digits, rest)
                   && 1 <= |digits| <= 4 && AllDigits(digits)
                   && DecimalValue(digits) == t.address && 1 <= t.address <= 2048
                   && message.payload == (if t.position == Closed then "CLOSED" else "THROWN")
  {
    if CommandOf(message) == Some(t) {
      ParseGivesSegments(message.topic);
      var digits := ParseDeviceTypeAndAddress(message.topic).value.1;
      var prefix, rest :| HasSegments(message.topic, prefix, "turnout", digits, rest);
      assert 1 <= |digits| <= 4 && AllDigits(digits);
    }
    forall prefix, digits, rest |
      && HasSegments(message.topic, prefix, "turnout", digits, rest)
      && 1 <= |digits| <= 4 && AllDigits(digits)
      && DecimalValue(digits) == t.address && InRange(t.address)
      && message.payload == Payload(t.position)
      ensures CommandOf(message) == Some(t)
    {
      SegmentsGiveCommand(message, prefix, digits, rest, t);
    }
  }

  /** A turnout's address and position, printed into a topic of the right shape, read back as that
      turnout; in particular its own state topic and payload do. */
  lemma StateMessageParsesBack(t: Turnout, rest: string)
    requires InRange(t.address)
    ensures CommandOf(IncomingMqttMessage(STATE_PREFIX + IntText(t.address) + "/" + rest, Payload(t.position))) == Some(t)
    ensures rest == "state" ==> STATE_PREFIX + IntText(t.address) + "/" + rest == Topic(t.address)
  {
    DecimalRoundTrip(t.address);
    var digits := Decimal(t.address);
    NoSlashInDigits(digits);
    TopicSegments(digits, rest);
    var topic := STATE_PREFIX + digits + "/" + rest;
    SegmentsGiveCommand(IncomingMqttMessage(topic, Payload(t.position)), "loconet", digits, rest, t);
    if rest == "state" { SlashState(STATE_PREFIX + digits); }
  }

  lemma SlashState(s: string)
    ensures s + "/" + "state" == s + "/state"
  {
  }

  lemma NoSlashInDigits(digits: string)
    requires AllDigits(digits)
    ensures '/' !in digits
  {
  }

  lemma TopicSegments(digits: string, rest: string)
    requires '/' !in digits
    ensures HasSegments(STATE_PREFIX + digits + "/" + rest, "loconet", "turnout", digits, rest)
  {
  }

  /** End to end: both pulses of an accepted command survive the wire, are read back as exactly that
      command whatever acks are outstanding, and print the state topic and payload of the command. */
  lemma CommandEchoesAsItsState(message: IncomingMqttMessage, outputOn: bool, fifo: seq<int>)
    requires CommandOf(message).Some?
    ensures var t := CommandOf(message).value;
            var pulse := BuildSwReq(t, outputOn);
            && Codec.DecodeLine(Codec.RECEIVE_PREFIX + Codec.Describe(pulse)) == Some(pulse)
            && Observation(fifo, pulse) == Some(t)
            && EncodeState(t).payload == message.payload
            && CommandOf(IncomingMqttMessage(EncodeState(t).topic, EncodeState(t).payload)) == Some(t)
  {
    var t := CommandOf(message).value;
    var pulse := BuildSwReq(t, outputOn);
    SwReqReadsBack(t, outputOn);
    ValidIffXorIsAllOnes(pulse);
    Codec.DecodeDescribe(pulse);
    StateMessageParsesBack(t, "state");
  }
}
