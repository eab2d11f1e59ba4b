/** LocoNet frames: the byte-level arithmetic of the checksum, the switch-request and
    state-request builders, and the fields the turnout decoder reads back. */
module LocoNet {
  import opened Bits

  type Byte = b: int | 0 <= b < 256
  type Frame = seq<Byte>

  datatype Position = Closed | Thrown

  /** A turnout with a direction: a command to set it, or a report that it is set. */
  datatype Turnout = Turnout(address: int, position: Position)

  const OPC_SW_REQ: Byte := 0xB0
  const OPC_SW_REP: Byte := 0xB1
  const OPC_LONG_ACK: Byte := 0xB4
  const OPC_SW_STATE: Byte := 0xBC
  const SWITCH_STATE_ACK_CODE: Byte := 0x3C
  const SW_REP_INPUTS: Byte := 0x40
  const CLOSED_BIT: Byte := 0x20
  const OUTPUT_ON_BIT: Byte := 0x10

  const MIN_ADDRESS := 1
  const MAX_ADDRESS := 2048

  // ---------------------------------------------------------------- bits

  /** `x & bit != 0` for a one-bit mask. */
  predicate HasBit(x: Byte, bit: Byte)
    requires bit > 0
  {
    (x / bit) % 2 == 1
  }

  /** `x | bit` for a one-bit mask. */
  function SetBit(x: Byte, bit: Byte): int
    requires bit > 0
  {
    if HasBit(x, bit) then x else x + bit
  }

  lemma HalvedFourTimes(x: nat)
    ensures x / 2 / 2 / 2 / 2 == x / 16
  {
  }

  lemma FourthBit(x: nat, k: nat)
    ensures Bit(x, k + 4) == Bit(x / 16, k)
  {
    HalvedFourTimes(x);
    assert Bit(x, k + 4) == Bit(x / 2, k + 3) == Bit(x / 2 / 2, k + 2) == Bit(x / 2 / 2 / 2, k + 1);
  }

  /** For the two masks in use that is the bitwise or. */
  lemma SetBitIsOr(x: Byte)
    ensures SetBit(x, OUTPUT_ON_BIT) == Or(x, OUTPUT_ON_BIT)
    ensures SetBit(x, CLOSED_BIT) == Or(x, CLOSED_BIT)
  {
    OutputBit(x, 4);
    ClosedBit(x, 5);
  }

  lemma OutputBit(x: Byte, k: nat)
    requires k == 4
    ensures SetBit(x, OUTPUT_ON_BIT) == Or(x, OUTPUT_ON_BIT)
  {
    assert Pow2(k) == 2 * Pow2(k - 1) == 4 * Pow2(k - 2) == 8 * Pow2(k - 3) == 16 * Pow2(k - 4);
    FourthBit(x, 0);
    OrOfOneBit(x, k);
  }

  lemma ClosedBit(x: Byte, k: nat)
    requires k == 5
    ensures SetBit(x, CLOSED_BIT) == Or(x, CLOSED_BIT)
  {
    assert Pow2(k) == 2 * Pow2(k - 1) == 4 * Pow2(k - 2) == 8 * Pow2(k - 3) == 16 * Pow2(k - 4) == 32 * Pow2(k - 5);
    FourthBit(x, k - 4);
    OrOfOneBit(x, k);
  }

  function XorByte(a: Byte, b: Byte): Byte
  {
    XorByteInRange(a, b);
    Xor(a, b)
  }

  lemma XorByteInRange(a: Byte, b: Byte)
    ensures 0 <= Xor(a, b) < 256
  {
    assert Pow2(8) == 256 by { assert Pow2(4) == 16; }
    XorBelow(a, b, 8);
  }

  /** Two bytes differ exactly when their exclusive or is not zero. */
  lemma XorDetects(x: Byte, a: Byte, b: Byte)
    requires XorByte(x, a) == XorByte(x, b)
    ensures a == b
  {
    XorLaws(x, x, a);
    XorLaws(x, x, b);
    XorCancels(x);
    XorCancels(a);
    XorCancels(b);
  }

  // ------------------------------------------------------------ checksum

  function XorAll(bytes: Frame): Byte
  {
    if bytes == [] then 0 else XorByte(XorAll(bytes[..|bytes| - 1]), bytes[|bytes| - 1])
  }

  function Checksum(bytesBeforeChecksum: Frame): Byte
  {
    XorByte(XorAll(bytesBeforeChecksum), 0xFF)
  }

  method ComputeLocoNetChecksum(bytesBeforeChecksum: Frame) returns (checksum: Byte)
    ensures XorAll(bytesBeforeChecksum + [checksum]) == 0xFF
    ensures checksum == Checksum(bytesBeforeChecksum)
  {
    var xorAccumulator: Byte := 0;
    for i := 0 to |bytesBeforeChecksum|
      invariant xorAccumulator == XorAll(bytesBeforeChecksum[..i])
    {
      assert bytesBeforeChecksum[..i + 1][..i] == bytesBeforeChecksum[..i];
      xorAccumulator := XorByte(xorAccumulator, bytesBeforeChecksum[i]);
    }
    assert bytesBeforeChecksum[..|bytesBeforeChecksum|] == bytesBeforeChecksum;
    checksum := XorByte(xorAccumulator, 0xFF);
    ChecksumCompletes(bytesBeforeChecksum, checksum);
  }

  /** The code's own test: the last byte is the checksum of the bytes before it. */
  predicate HasValidChecksum(bytes: Frame)
  {
    |bytes| >= 2 && Checksum(bytes[..|bytes| - 1]) == bytes[|bytes| - 1]
  }

  lemma ChecksumCompletes(body: Frame, last: Byte)
    ensures last == Checksum(body) <==> XorAll(body + [last]) == 0xFF
  {
    assert (body + [last])[..|body|] == body;
    var x := XorAll(body);
    XorLaws(x, x, 0xFF);
    XorLaws(x, x, last);
    XorCancels(x);
    XorCancels(0xFF);
    XorCancels(last);
  }

  /** The test on the last byte is the standard's rule that all bytes XOR to 0xFF. */
  lemma ValidIffXorIsAllOnes(bytes: Frame)
    ensures HasValidChecksum(bytes) <==> |bytes| >= 2 && XorAll(bytes) == 0xFF
  {
    if |bytes| >= 2 {
      var n := |bytes| - 1;
      assert bytes == bytes[..n] + [bytes[n]];
      ChecksumCompletes(bytes[..n], bytes[n]);
    }
  }

  /** Replacing byte i by b replaces its contribution to the running XOR. */
  lemma {:induction false} XorAllUpdate(bytes: Frame, i: nat, b: Byte)
    requires i < |bytes|
    ensures XorByte(XorAll(bytes[i := b]), bytes[i]) == XorByte(XorAll(bytes), b)
  {
    var n := |bytes| - 1;
    var changed := bytes[i := b];
    var x, last := XorAll(bytes[..n]), bytes[n];
    if i == n {
      assert changed[..n] == bytes[..n];
      XorLaws(x, b, last);
      XorLaws(x, last, b);
      XorLaws(b, last, 0);
    } else {
      assert changed[..n] == bytes[..n][i := b];
      XorAllUpdate(bytes[..n], i, b);
      var y := XorAll(changed[..n]);
      XorLaws(y, last, bytes[i]);
      XorLaws(y, bytes[i], last);
      XorLaws(last, bytes[i], 0);
      XorLaws(x, b, last);
      XorLaws(x, last, b);
      XorLaws(b, last, 0);
    }
  }

  /** Any change confined to one byte of a valid frame is detected. */
  lemma SingleByteCorruptionIsDetected(bytes: Frame, i: nat, b: Byte)
    requires HasValidChecksum(bytes) && i < |bytes| && b != bytes[i]
    ensures !HasValidChecksum(bytes[i := b])
  {
    ValidIffXorIsAllOnes(bytes);
    ValidIffXorIsAllOnes(bytes[i := b]);
    if HasValidChecksum(bytes[i := b]) {
      XorAllUpdate(bytes, i, b);
      XorDetects(0xFF, bytes[i], b);
      assert false;
    }
  }

  // -------------------------------------------------------- turnout frames

  function AddressFrom(bytes: Frame): int
    requires |bytes| >= 3
  {
    var low: int, high: int := bytes[1] % 0x80, bytes[2] % 0x10;
    high * 0x80 + low + 1
  }

  function PositionFrom(bytes: Frame): Position
    requires |bytes| >= 3
  {
    if HasBit(bytes[2], CLOSED_BIT) then Closed else Thrown
  }

  predicate IsSensorReport(bytes: Frame)
    requires |bytes| >= 3
  {
    bytes[0] == OPC_SW_REP && HasBit(bytes[2], SW_REP_INPUTS)
  }

  /** The low seven bits of the zero-based address, `(address - 1) & 0x7F` on two's complement. */
  function Sw1(address: int): Byte { (address - 1) % 0x80 }

  /** The next four bits, `((address - 1) >> 7) & 0x0F`. */
  function Sw2(address: int): Byte { ((address - 1) / 0x80) % 0x10 }

  function SwReqSw2(command: Turnout, outputOn: bool): Byte
  {
    var sw2 := Sw2(command.address);
    var sw2 := if command.position == Closed then SetBit(sw2, CLOSED_BIT) else sw2;
    if outputOn then SetBit(sw2, OUTPUT_ON_BIT) else sw2
  }

  /** OPC_SW_REQ with the output bit on or off. */
  function BuildSwReq(command: Turnout, outputOn: bool): Frame
  {
    var body: Frame := [OPC_SW_REQ, Sw1(command.address), SwReqSw2(command, outputOn)];
    body + [Checksum(body)]
  }

  /** OPC_SW_STATE. */
  function StateRequest(address: int): Frame
  {
    var body: Frame := [OPC_SW_STATE, Sw1(address), Sw2(address)];
    body + [Checksum(body)]
  }

  predicate IsPulse(frame: Frame, outputOn: bool)
  {
    |frame| == 4 && frame[0] == OPC_SW_REQ && HasBit(frame[2], OUTPUT_ON_BIT) == outputOn
  }

  predicate IsStateRequest(frame: Frame) { |frame| == 4 && frame[0] == OPC_SW_STATE }

  /** A reply to OPC_SW_STATE that the router lets through to the decoder. */
  predicate IsStateAck(frame: Frame)
  {
    |frame| >= 4 && frame[0] == OPC_LONG_ACK && frame[1] == SWITCH_STATE_ACK_CODE
  }

  predicate InRange(address: int) { MIN_ADDRESS <= address <= MAX_ADDRESS }

  /** Both pulses of a command are checksum-valid and read back as that command. */
  lemma SwReqReadsBack(command: Turnout, outputOn: bool)
    requires InRange(command.address)
    ensures var f := BuildSwReq(command, outputOn);
            && HasValidChecksum(f)
            && IsPulse(f, outputOn) && !IsPulse(f, !outputOn)
            && !IsStateRequest(f) && !IsStateAck(f) && !IsSensorReport(f)
            && Turnout(AddressFrom(f), PositionFrom(f)) == command
  {
    var body: Frame := [OPC_SW_REQ, Sw1(command.address), SwReqSw2(command, outputOn)];
    Sealed(body);
    Sw2Fields(command, outputOn);
    AddressSplits(command.address);
  }

  lemma Sealed(body: Frame)
    requires body != []
    ensures HasValidChecksum(body + [Checksum(body)])
  {
  }

  /** The direction and output bits sit above the four address bits and do not disturb them. */
  lemma Sw2Fields(command: Turnout, outputOn: bool)
    ensures var sw2 := SwReqSw2(command, outputOn);
            && sw2 % 0x10 == Sw2(command.address)
            && HasBit(sw2, CLOSED_BIT) == (command.position == Closed)
            && HasBit(sw2, OUTPUT_ON_BIT) == outputOn
  {
  }

  lemma AddressSplits(address: int)
    requires InRange(address)
    ensures var low: int, high: int := Sw1(address), Sw2(address); high * 0x80 + low + 1 == address
    ensures Sw1(address) % 0x80 == Sw1(address)
  {
  }

  lemma StateRequestReadsBack(address: int)
    requires InRange(address)
    ensures var f := StateRequest(address);
            && HasValidChecksum(f)
            && IsStateRequest(f) && !IsPulse(f, true) && !IsPulse(f, false)
            && AddressFrom(f) == address
  {
    Sealed([OPC_SW_STATE, Sw1(address), Sw2(address)]);
    AddressSplits(address);
  }

  /** Every address read off the wire is one the encoders can express. */
  lemma AddressFromInRange(bytes: Frame)
    requires |bytes| >= 3
    ensures InRange(AddressFrom(bytes))
  {
  }

  // ---------------------------------------------------- the bytes themselves

  /** What three bytes of a switch frame or a state ack say, bit by bit and whatever the opcode. */
  lemma FieldsOnTheWire(m: Frame)
    requires |m| >= 3
    ensures PositionFrom(m) == Closed <==> m[2] / 32 % 2 == 1
    ensures var low: int, high: int := m[1] % 128, m[2] % 16; AddressFrom(m) == 1 + low + 128 * high
  {
  }

  /** A message of the bus: only its opcode has the top bit set, and its bytes XOR to 0xFF. */
  predicate IsFramed(f: Frame)
  {
    |f| == 4 && f[0] >= 0x80 && f[1] < 0x80 && f[2] < 0x80 && f[3] < 0x80 && XorAll(f) == 0xFF
  }

  /** Both pulses, byte by byte: OPC_SW_REQ, the low seven address bits, then direction, output and the
      high four address bits, and the byte that completes the checksum. */
  lemma PulseBytes(command: Turnout, outputOn: bool)
    requires InRange(command.address)
    ensures var f := BuildSwReq(command, outputOn);
            && IsFramed(f) && f[0] == 0xB0 && f[2] < 0x40
            && (var low: int, high: int := f[1], f[2] % 16; low + 128 * high == command.address - 1)
            && (f[2] / 32 % 2 == 1 <==> command.position == Closed)
            && (f[2] / 16 % 2 == 1 <==> outputOn)
  {
    var body: Frame := [OPC_SW_REQ, Sw1(command.address), SwReqSw2(command, outputOn)];
    Sw2Fields(command, outputOn);
    Sw2Below(command, outputOn);
    AddressSplits(command.address);
    BodyIsFramed(body);
  }

  lemma Sw2Below(command: Turnout, outputOn: bool)
    ensures 0 <= SwReqSw2(command, outputOn) < 0x40
  {
  }

  /** The state request, byte by byte. */
  lemma RequestBytes(address: int)
    requires InRange(address)
    ensures var f := StateRequest(address);
            && IsFramed(f) && f[0] == 0xBC && f[2] < 0x10
            && (var low: int, high: int := f[1], f[2]; low + 128 * high == address - 1)
  {
    BodyIsFramed([OPC_SW_STATE, Sw1(address), Sw2(address)]);
  }

  /** An opcode and two data bytes, completed by their checksum, are framed. */
  lemma BodyIsFramed(body: Frame)
    requires |body| == 3 && body[0] >= 0x80 && body[1] < 0x80 && body[2] < 0x80
    ensures IsFramed(body + [Checksum(body)])
  {
    ChecksumCompletes(body, Checksum(body));
    TopBitOfThree(body);
    var x := XorAll(body);
    XorOfBits(x, 0xFF, 7);
    TopBit(x);
    TopBit(0xFF);
    TopBit(Checksum(body));
  }

  lemma TopBitOfThree(body: Frame)
    requires |body| == 3 && body[0] >= 0x80 && body[1] < 0x80 && body[2] < 0x80
    ensures XorAll(body) >= 0x80
  {
    assert body[..2][..1] == [body[0]] && [body[0]][..0] == [];
    XorCancels(body[0]);
    assert XorAll([body[0]]) == body[0];
    TopBitStays(body[0], body[1]);
    assert XorAll(body[..2]) == XorByte(XorAll(body[..2][..1]), body[1]);
    TopBitStays(XorAll(body[..2]), body[2]);
  }

  lemma TopBitStays(a: Byte, b: Byte)
    requires a >= 0x80 && b < 0x80
    ensures XorByte(a, b) >= 0x80
  {
    XorOfBits(a, b, 7);
    TopBit(a);
    TopBit(b);
    TopBit(XorByte(a, b));
  }

  lemma TopBit(x: Byte)
    ensures Bit(x, 7) == if x >= 0x80 then 1 else 0
  {
    FourthBit(x, 3);
    var y := x / 16;
    assert Bit(y, 3) == Bit(y / 2, 2) == Bit(y / 2 / 2, 1) == y / 2 / 2 / 2 % 2;
  }
}
