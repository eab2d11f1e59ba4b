/** Cutting the byte stream from the server into lines, with a bounded buffer. */
module LineFraming {
  import opened Basics
  import opened LocoNet
  import opened Codec

  /** WiFiClientLineStream's cap on a buffered line. */
  const MAX_BUFFERED_BYTES: nat := 256

  /** The most bytes of a frame that fit: 8 characters of prefix, then three a byte less one. */
  const MAX_FRAME_BYTES: nat := 83

  // ------------------------------------------------- the assembler's steps

  function StripReturn(line: string, terminator: char): string
  {
    if terminator == '\n' && line != "" && line[|line| - 1] == '\r' then line[..|line| - 1] else line
  }

  function Truncate(s: string, cap: nat): string { if |s| <= cap then s else s[..cap] }

  /** The lines that feeding `bytes` one at a time returns, from a buffer already holding `buffer`. */
  function Assemble(buffer: string, bytes: string, cap: nat, terminator: char): seq<string>
    decreases |bytes|
  {
    if bytes == [] then []
    else if bytes[0] == terminator then
      [StripReturn(buffer, terminator)] + Assemble("", bytes[1..], cap, terminator)
    else Assemble(if |buffer| < cap then buffer + [bytes[0]] else buffer, bytes[1..], cap, terminator)
  }

  class LineAssembler {
    var buffer: string
    const maxBufferedBytes: nat
    const terminator: char

    constructor (maxBufferedBytes: nat, terminator: char)
      ensures buffer == "" && this.maxBufferedBytes == maxBufferedBytes && this.terminator == terminator
    {
      this.buffer := "";
      this.maxBufferedBytes := maxBufferedBytes;
      this.terminator := terminator;
    }

    method Feed(c: char) returns (line: Option<string>)
      modifies this
      ensures line.Some? <==> c == terminator
      ensures c == terminator ==> buffer == "" && line == Some(StripReturn(old(buffer), terminator))
      ensures c != terminator ==>
        buffer == if |old(buffer)| < maxBufferedBytes then old(buffer) + [c] else old(buffer)
    {
      if c == terminator {
        var finished := FinishLine();
        return Some(finished);
      }
      if |buffer| < maxBufferedBytes {
        buffer := buffer + [c];
      }
      return None;
    }

    method FinishLine() returns (line: string)
      modifies this
      ensures buffer == "" && line == StripReturn(old(buffer), terminator)
    {
      line := buffer;
      buffer := "";
      if terminator == '\n' && line != "" && line[|line| - 1] == '\r' {
        line := line[..|line| - 1];
      }
    }
  }

  /** What the buffer holds after feeding `bytes`. */
  function BufferAfter(buffer: string, bytes: string, cap: nat, terminator: char): string
    decreases |bytes|
  {
    if bytes == [] then buffer
    else if bytes[0] == terminator then BufferAfter("", bytes[1..], cap, terminator)
    else BufferAfter(if |buffer| < cap then buffer + [bytes[0]] else buffer, bytes[1..], cap, terminator)
  }

  /** Bytes may arrive in any portions: the lines are those of the whole stream. */
  lemma {:induction false} AssembleAppend(buffer: string, a: string, b: string, cap: nat, terminator: char)
    ensures var between := BufferAfter(buffer, a, cap, terminator);
            && Assemble(buffer, a + b, cap, terminator)
               == Assemble(buffer, a, cap, terminator) + Assemble(between, b, cap, terminator)
            && BufferAfter(buffer, a + b, cap, terminator) == BufferAfter(between, b, cap, terminator)
    decreases |a|
  {
    if a == [] {
      assert a + b == b;
    } else {
      assert (a + b)[0] == a[0] && (a + b)[1..] == a[1..] + b;
      if a[0] == terminator {
        AssembleAppend("", a[1..], b, cap, terminator);
        Regroup([StripReturn(buffer, terminator)], Assemble("", a[1..], cap, terminator),
                Assemble(BufferAfter("", a[1..], cap, terminator), b, cap, terminator));
      } else {
        AssembleAppend(if |buffer| < cap then buffer + [a[0]] else buffer, a[1..], b, cap, terminator);
      }
    }
  }

  /** The lines in a stream of bytes from JMRI, as the socket's assembler cuts them. */
  function LinesOf(bytes: string): seq<string> { Assemble("", bytes, MAX_BUFFERED_BYTES, '\n') }

  /** The lines completed by further bytes. */
  function NewLines(received: string, bytes: string): seq<string>
  {
    Assemble(BufferAfter("", received, MAX_BUFFERED_BYTES, '\n'), bytes, MAX_BUFFERED_BYTES, '\n')
  }

  /** The socket: bytes received and not yet read, and the lines written. */
  class SocketLineStream {
    var available: string
    var written: seq<string>
    const assembler: LineAssembler
    ghost var received: string       // every byte ever received
    ghost var incoming: seq<string>  // the lines still to come out of the bytes received

    ghost predicate Valid()
      reads this`available, this`received, this`incoming, assembler
    {
      && assembler.maxBufferedBytes == MAX_BUFFERED_BYTES && assembler.terminator == '\n'
      && incoming == Assemble(assembler.buffer, available, MAX_BUFFERED_BYTES, '\n')
      && BufferAfter(assembler.buffer, available, MAX_BUFFERED_BYTES, '\n')
         == BufferAfter("", received, MAX_BUFFERED_BYTES, '\n')
    }

    constructor ()
      ensures Valid() && fresh(assembler)
      ensures received == "" && incoming == [] && written == []
    {
      available, received, incoming, written := "", "", [], [];
      assembler := new LineAssembler(MAX_BUFFERED_BYTES, '\n');
    }

    /** More bytes come in, in whatever portions. */
    method Arrive(bytes: string)
      requires Valid()
      modifies this`available, this`received, this`incoming
      ensures Valid() && received == old(received) + bytes
      ensures incoming == old(incoming) + NewLines(old(received), bytes)
      ensures LinesOf(received) == LinesOf(old(received)) + NewLines(old(received), bytes)
    {
      AssembleAppend(assembler.buffer, available, bytes, MAX_BUFFERED_BYTES, '\n');
      AssembleAppend("", received, bytes, MAX_BUFFERED_BYTES, '\n');
      incoming := incoming + NewLines(received, bytes);
      available, received := available + bytes, received + bytes;
    }

    method ReadLine() returns (line: Option<string>)
      requires Valid()
      modifies this`available, this`incoming, assembler
      ensures Valid()
      ensures old(incoming) == [] ==> line == None && incoming == []
      ensures old(incoming) != [] ==> line == Some(old(incoming)[0]) && incoming == old(incoming)[1..]
    {
      while available != ""
        invariant Valid() && incoming == old(incoming)
        decreases |available|
      {
        var c := available[0];
        available := available[1..];
        line := assembler.Feed(c);
        if line.Some? {
          incoming := incoming[1..];
          return;
        }
      }
      return None;
    }

    method WriteLine(line: string)
      modifies this`written
      ensures written == old(written) + [line]
    {
      written := written + [line];
    }

    /** The live state of the socket: two readings in a row may differ. */
    method IsConnected() returns (connected: bool)
    {
      connected := *;
    }
  }

  // ------------------------------------- what the assembler means: splitting

  /** Position of the first terminator, or the length of s. */
  function FirstIndex(s: string, terminator: char): (i: nat)
    ensures i <= |s|
    ensures i < |s| ==> s[i] == terminator
    ensures terminator !in s[..i]
  {
    if s == [] || s[0] == terminator then 0
    else
      var i := 1 + FirstIndex(s[1..], terminator);
      assert s[..i] == [s[0]] + s[1..][..i - 1];
      i
  }

  /** The terminated pieces of s; an unterminated remainder is not a piece. */
  function Pieces(s: string, terminator: char): seq<string>
    decreases |s|
  {
    var i := FirstIndex(s, terminator);
    if i == |s| then [] else [s[..i]] + Pieces(s[i + 1..], terminator)
  }

  function Remainder(s: string, terminator: char): string
    decreases |s|
  {
    var i := FirstIndex(s, terminator);
    if i == |s| then s else Remainder(s[i + 1..], terminator)
  }

  function Join(pieces: seq<string>, terminator: char): string
  {
    if pieces == [] then "" else pieces[0] + [terminator] + Join(pieces[1..], terminator)
  }

  lemma Rejoin(s: string, i: nat, joined: string, last: string)
    requires i < |s| && joined + last == s[i + 1..]
    ensures (s[..i] + [s[i]] + joined) + last == s
  {
  }

  lemma PiecesStep(s: string, terminator: char, i: nat)
    requires FirstIndex(s, terminator) == i < |s|
    ensures Join(Pieces(s, terminator), terminator)
            == s[..i] + [terminator] + Join(Pieces(s[i + 1..], terminator), terminator)
  {
    var later := Pieces(s[i + 1..], terminator);
    assert ([s[..i]] + later)[1..] == later;
  }

  /** Joining the pieces gives the input back... */
  lemma {:induction false} PiecesRejoin(s: string, terminator: char)
    ensures Join(Pieces(s, terminator), terminator) + Remainder(s, terminator) == s
    decreases |s|
  {
    var i := FirstIndex(s, terminator);
    if i < |s| {
      PiecesStep(s, terminator, i);
      PiecesRejoin(s[i + 1..], terminator);
      Rejoin(s, i, Join(Pieces(s[i + 1..], terminator), terminator), Remainder(s, terminator));
    }
  }

  /** ... and no piece contains a terminator, so Pieces is the one way to cut the input. */
  lemma {:induction false} PiecesAreTerminatorFree(s: string, terminator: char)
    ensures forall p | p in Pieces(s, terminator) :: terminator !in p
    ensures terminator !in Remainder(s, terminator)
    decreases |s|
  {
    var i := FirstIndex(s, terminator);
    if i < |s| {
      PiecesAreTerminatorFree(s[i + 1..], terminator);
    } else {
      assert s[..i] == s;
    }
  }

  /** One raw piece as the assembler delivers it. */
  function Deliver(piece: string, cap: nat, terminator: char): string
  {
    StripReturn(Truncate(piece, cap), terminator)
  }

  function DeliverAll(pieces: seq<string>, cap: nat, terminator: char): seq<string>
  {
    if pieces == [] then [] else [Deliver(pieces[0], cap, terminator)] + DeliverAll(pieces[1..], cap, terminator)
  }

  lemma FirstIndexAfter(r: string, rest: string, terminator: char)
    requires terminator !in r
    ensures FirstIndex(r + [terminator] + rest, terminator) == |r|
  {
    var s := r + [terminator] + rest;
    assert s[|r|] == terminator;
    assert forall k | 0 <= k < |r| :: s[k] == r[k];
  }

  lemma PiecesCons(r: string, rest: string, terminator: char)
    requires terminator !in r
    ensures Pieces(r + [terminator] + rest, terminator) == [r] + Pieces(rest, terminator)
  {
    FirstIndexAfter(r, rest, terminator);
    var s := r + [terminator] + rest;
    assert s[..|r|] == r && s[|r| + 1..] == rest;
  }

  /** Feeding bytes to a bounded buffer is: split at the terminator, cut each piece to the cap,
      then drop one trailing carriage return. `raw` is what arrived since the last terminator. */
  lemma {:induction false} AssembleIsSplitTruncateStrip(raw: string, bytes: string, cap: nat, terminator: char)
    requires terminator !in raw
    ensures Assemble(Truncate(raw, cap), bytes, cap, terminator)
            == DeliverAll(Pieces(raw + bytes, terminator), cap, terminator)
    decreases |bytes|
  {
    if bytes == [] {
      assert raw + bytes == raw;
      assert FirstIndex(raw, terminator) == |raw| by {
        if FirstIndex(raw, terminator) < |raw| { assert false; }
      }
    } else if bytes[0] == terminator {
      assert raw + bytes == raw + [terminator] + bytes[1..];
      PiecesCons(raw, bytes[1..], terminator);
      AssembleIsSplitTruncateStrip("", bytes[1..], cap, terminator);
      assert "" + bytes[1..] == bytes[1..];
    } else {
      var c := bytes[0];
      assert raw + bytes == (raw + [c]) + bytes[1..];
      AssembleIsSplitTruncateStrip(raw + [c], bytes[1..], cap, terminator);
      assert |Truncate(raw, cap)| < cap ==> Truncate(raw + [c], cap) == Truncate(raw, cap) + [c];
      assert |Truncate(raw, cap)| >= cap ==> Truncate(raw + [c], cap) == Truncate(raw, cap);
    }
  }

  // ------------------------------------------------------ end-to-end delivery

  /** What the server sends: a frame, or any other line (greeting, confirmation, garbled data). */
  datatype ServerLine = Data(frame: Frame) | Notice(text: string)

  predicate IsOneLine(item: ServerLine) { item.Notice? ==> '\n' !in item.text }

  predicate AllOneLine(items: seq<ServerLine>) { forall item | item in items :: IsOneLine(item) }

  function LineText(item: ServerLine): string
  {
    match item
    case Data(frame) => "RECEIVE " + Describe(frame)
    case Notice(text) => text
  }

  /** Every line ends in carriage return, line feed. */
  function Transmit(items: seq<ServerLine>): string
  {
    if items == [] then "" else LineText(items[0]) + "\r" + ['\n'] + Transmit(items[1..])
  }

  /** The frames the port takes from a list of lines, skipping what does not decode. */
  function Decodables(lines: seq<string>): seq<Frame>
  {
    if lines == [] then []
    else
      var m := DecodeLine(lines[0]);
      (if m.Some? then [m.value] else []) + Decodables(lines[1..])
  }

  lemma {:induction false} DecodablesAppend(a: seq<string>, b: seq<string>)
    ensures Decodables(a + b) == Decodables(a) + Decodables(b)
  {
    if a == [] {
      assert a + b == b;
    } else {
      assert (a + b)[0] == a[0] && (a + b)[1..] == a[1..] + b;
      DecodablesAppend(a[1..], b);
      var m := DecodeLine(a[0]);
      Regroup(if m.Some? then [m.value] else [], Decodables(a[1..]), Decodables(b));
    }
  }

  /** A frame as it fits through the buffer. */
  function Clip(frame: Frame): Frame
  {
    if |frame| <= 83 then frame else frame[..83]
  }

  /** The frames a receiver may expect of a transmission. */
  function Expected(items: seq<ServerLine>): seq<Frame>
  {
    if items == [] then []
    else
      var m := match items[0]
        case Data(frame) => if HasValidChecksum(Clip(frame)) then Some(Clip(frame)) else None
        case Notice(text) => DecodeLine(Deliver(text + "\r", MAX_BUFFERED_BYTES, '\n'));
      (if m.Some? then [m.value] else []) + Expected(items[1..])
  }

  lemma DeliverData(frame: Frame)
    ensures Deliver(RECEIVE_PREFIX + Describe(frame) + "\r", MAX_BUFFERED_BYTES, '\n')
            == RECEIVE_PREFIX + Describe(Clip(frame))
  {
    DescribeLength(frame);
    var text := Describe(frame);
    var line := RECEIVE_PREFIX + text;
    if |frame| < MAX_FRAME_BYTES {
      assert (line + "\r")[..|line|] == line;
    } else {
      DescribeIsOneLine(frame);
      DescribeTruncated(frame, MAX_FRAME_BYTES);
      assert |frame| == MAX_FRAME_BYTES ==> frame[..MAX_FRAME_BYTES] == frame;
      var cut := text[..3 * MAX_FRAME_BYTES - 1];
      assert Truncate(line + "\r", MAX_BUFFERED_BYTES) == RECEIVE_PREFIX + cut;
      assert text[3 * MAX_FRAME_BYTES - 2] in text;
    }
  }

  /** A line that is not data is skipped; one that fits the buffer is read as it was sent. */
  lemma DeliverNotice(text: string)
    ensures !StartsWith(text, RECEIVE_PREFIX) ==> DecodeLine(Deliver(text + "\r", MAX_BUFFERED_BYTES, '\n')) == None
    ensures |text| < MAX_BUFFERED_BYTES ==> Deliver(text + "\r", MAX_BUFFERED_BYTES, '\n') == text
  {
  }

  /** For any interleaving of frames and other lines, whatever their lengths, the bytes sent come
      out of the 256-byte line buffer as exactly the checksum-valid frames of up to 83 bytes, each
      intact and in order, the 83-byte prefixes of longer frames that happen to be valid, and what
      other lines decode to on their own. */
  lemma {:induction false} TransmissionIsDelivered(items: seq<ServerLine>)
    requires AllOneLine(items)
    ensures Decodables(LinesOf(Transmit(items))) == Expected(items)
  {
    AssembleIsSplitTruncateStrip("", Transmit(items), MAX_BUFFERED_BYTES, '\n');
    assert "" + Transmit(items) == Transmit(items);
    PiecesOfTransmit(items);
  }

  lemma {:induction false} PiecesOfTransmit(items: seq<ServerLine>)
    requires AllOneLine(items)
    ensures Decodables(DeliverAll(Pieces(Transmit(items), '\n'), MAX_BUFFERED_BYTES, '\n')) == Expected(items)
  {
    if items != [] {
      var item := items[0];
      var raw := LineText(item) + "\r";
      assert '\n' !in raw by {
        assert item in items && IsOneLine(item);
        if item.Data? { DescribeIsOneLine(item.frame); }
      }
      PiecesCons(raw, Transmit(items[1..]), '\n');
      PiecesOfTransmit(items[1..]);
      match item {
        case Data(frame) =>
          DeliverData(frame);
          DecodeDescribe(Clip(frame));
          ValidIffXorIsAllOnes(Clip(frame));
        case Notice(text) =>
      }
    }
  }
}
