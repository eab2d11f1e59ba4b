/** The LocoNetOverTcp line syntax: `SEND <hex bytes>` out, `RECEIVE <hex bytes>` in. */
module Codec {
  import opened Basics
  import opened LocoNet

  const RECEIVE_PREFIX: string := "RECEIVE "

  // ---------------------------------------------------------------- hex

  function HexDigit(d: int): char
    requires 0 <= d < 16
  {
    "0123456789ABCDEF"[d]
  }

  function ByteToHex(value: Byte): string { [HexDigit(value / 16), HexDigit(value % 16)] }

  predicate IsHexDigit(c: char) { '0' <= c <= '9' || 'a' <= c <= 'f' || 'A' <= c <= 'F' }

  function DigitValue(c: char): int
    requires IsHexDigit(c)
    ensures 0 <= DigitValue(c) < 16
  {
    if '0' <= c <= '9' then c as int - '0' as int
    else if 'a' <= c <= 'f' then c as int - 'a' as int + 10
    else c as int - 'A' as int + 10
  }

  predicate IsHexByteToken(token: string)
  {
    |token| == 2 && IsHexDigit(token[0]) && IsHexDigit(token[1])
  }

  function HexValue(token: string): Byte
    requires IsHexByteToken(token)
  {
    16 * DigitValue(token[0]) + DigitValue(token[1])
  }

  lemma HexRoundTrip(value: Byte)
    ensures IsHexByteToken(ByteToHex(value)) && HexValue(ByteToHex(value)) == value
    ensures forall c | c in ByteToHex(value) :: !IsSpace(c) && c != '\r' && c != '\n'
  {
    DigitRoundTrip(value / 16);
    DigitRoundTrip(value % 16);
  }

  lemma DigitRoundTrip(d: int)
    requires 0 <= d < 16
    ensures IsHexDigit(HexDigit(d)) && DigitValue(HexDigit(d)) == d && !IsSpace(HexDigit(d))
  {
  }

  // ------------------------------------------------------------- printing

  /** Two upper-case hex digits a byte, single spaces between. */
  function Describe(bytes: Frame): string
  {
    if bytes == [] then ""
    else if |bytes| == 1 then ByteToHex(bytes[0])
    else ByteToHex(bytes[0]) + " " + Describe(bytes[1..])
  }

  function EncodeSend(message: Frame): string { "SEND " + Describe(message) }

  lemma {:induction false} DescribeAppend(bytes: Frame, b: Byte)
    ensures Describe(bytes + [b]) == Describe(bytes) + (if bytes == [] then "" else " ") + ByteToHex(b)
  {
    var all := bytes + [b];
    if bytes == [] {
      assert all == [b];
    } else {
      assert all[1..] == bytes[1..] + [b];
      DescribeAppend(bytes[1..], b);
      calc {
        Describe(all);
        ByteToHex(bytes[0]) + " " + Describe(bytes[1..] + [b]);
        Describe(bytes) + " " + ByteToHex(b);
      }
    }
  }

  method DescribeMessage(bytes: Frame) returns (result: string)
    ensures result == Describe(bytes)
  {
    result := "";
    for i := 0 to |bytes|
      invariant result == Describe(bytes[..i])
    {
      DescribeAppend(bytes[..i], bytes[i]);
      assert bytes[..i + 1] == bytes[..i] + [bytes[i]];
      result := result + (if i > 0 then " " else "") + ByteToHex(bytes[i]);
    }
    assert bytes[..|bytes|] == bytes;
  }

  lemma {:induction false} DescribeLength(bytes: Frame)
    ensures |Describe(bytes)| == if bytes == [] then 0 else 3 * |bytes| - 1
  {
    if |bytes| > 1 { DescribeLength(bytes[1..]); }
  }

  lemma {:induction false} DescribeIsOneLine(bytes: Frame)
    ensures '\n' !in Describe(bytes) && '\r' !in Describe(bytes)
  {
    if bytes != [] {
      HexRoundTrip(bytes[0]);
      DescribeIsOneLine(bytes[1..]);
    }
  }

  /** Cutting the text after k bytes' worth of characters describes the first k bytes. */
  lemma {:induction false} DescribeTruncated(bytes: Frame, k: nat)
    requires 1 <= k <= |bytes|
    ensures |Describe(bytes)| >= 3 * k - 1
    ensures Describe(bytes)[..3 * k - 1] == Describe(bytes[..k])
  {
    DescribeLength(bytes);
    if k == |bytes| {
      assert bytes[..k] == bytes;
    } else if k == 1 {
      assert bytes[..1] == [bytes[0]];
    } else {
      DescribeTruncated(bytes[1..], k - 1);
      assert bytes[..k][1..] == bytes[1..][..k - 1];
      assert bytes[..k][0] == bytes[0];
    }
  }

  // -------------------------------------------------------------- parsing

  /** The whitespace that stream extraction skips. */
  predicate IsSpace(c: char) { c == ' ' || '\t' <= c <= '\r' }

  function SkipSpace(s: string): (rest: string)
    ensures |rest| <= |s|
    ensures rest != [] ==> !IsSpace(rest[0])
  {
    if s != [] && IsSpace(s[0]) then SkipSpace(s[1..]) else s
  }

  function WordLength(s: string): (n: nat)
    ensures n <= |s|
    ensures forall i | 0 <= i < n :: !IsSpace(s[i])
    ensures n < |s| ==> IsSpace(s[n])
  {
    if s == [] || IsSpace(s[0]) then 0 else 1 + WordLength(s[1..])
  }

  /** The whitespace-separated words of s. */
  function Tokens(s: string): seq<string>
    decreases |s|
  {
    var rest := SkipSpace(s);
    if rest == [] then []
    else
      var n := WordLength(rest);
      [rest[..n]] + Tokens(rest[n..])
  }

  predicate AllHex(tokens: seq<string>) { forall t | t in tokens :: IsHexByteToken(t) }

  function HexValues(tokens: seq<string>): Frame
    requires AllHex(tokens)
  {
    seq(|tokens|, i requires 0 <= i < |tokens| => HexValue(tokens[i]))
  }

  function HexBytes(body: string): Option<Frame>
  {
    var tokens := Tokens(body);
    if tokens != [] && AllHex(tokens) then Some(HexValues(tokens)) else None
  }

  lemma TokensStep(read: seq<string>, stream: string)
    requires stream != [] && !IsSpace(stream[0])
    ensures var n := WordLength(stream);
            n > 0 && read + Tokens(stream) == (read + [stream[..n]]) + Tokens(SkipSpace(stream[n..]))
  {
  }

  lemma TokensSkip(s: string)
    ensures Tokens(SkipSpace(s)) == Tokens(s)
  {
  }

  method ParseHexBytes(body: string) returns (r: Option<Frame>)
    ensures r == HexBytes(body)
  {
    var bytes: Frame := [];
    ghost var read: seq<string> := [];
    var stream := SkipSpace(body);
    TokensSkip(body);
    while stream != []
      invariant stream == [] || !IsSpace(stream[0])
      invariant Tokens(body) == read + Tokens(stream)
      invariant AllHex(read) && bytes == HexValues(read)
      decreases |stream|
    {
      var n := WordLength(stream);
      TokensStep(read, stream);
      var token := stream[..n];
      if !IsHexByteToken(token) {
        assert Tokens(body)[|read|] == token;
        return None;
      }
      bytes := bytes + [HexValue(token)];
      read := read + [token];
      stream := SkipSpace(stream[n..]);
    }
    assert Tokens(body) == read;
    return if bytes == [] then None else Some(bytes);
  }

  predicate StartsWith(s: string, prefix: string) { |prefix| <= |s| && s[..|prefix|] == prefix }

  /** A `RECEIVE` line with at least two well-formed bytes and a correct checksum; nothing else. */
  function DecodeLine(line: string): Option<Frame>
  {
    if !StartsWith(line, RECEIVE_PREFIX) then None
    else
      var bytes := HexBytes(line[|RECEIVE_PREFIX|..]);
      if bytes.None? || !HasValidChecksum(bytes.value) then None else bytes
  }

  // ----------------------------------------------------------- round trip

  lemma WordThenSpace(word: string, rest: string)
    requires word != [] && forall c | c in word :: !IsSpace(c)
    requires rest == [] || IsSpace(rest[0])
    ensures Tokens(word + rest) == [word] + Tokens(rest)
  {
    assert word[0] in word;
    assert SkipSpace(word + rest) == word + rest;
    forall i | 0 <= i < |word| ensures !IsSpace((word + rest)[i]) { assert word[i] in word; }
    assert rest != [] ==> (word + rest)[|word|] == rest[0];
    assert WordLength(word + rest) == |word|;
    assert (word + rest)[|word|..] == rest;
  }

  lemma LeadingSpace(s: string)
    ensures Tokens(" " + s) == Tokens(s)
  {
  }

  lemma TokensAfterByte(b: Byte, rest: string)
    ensures Tokens(ByteToHex(b) + " " + rest) == [ByteToHex(b)] + Tokens(rest)
    ensures Tokens(ByteToHex(b)) == [ByteToHex(b)]
  {
    var word := ByteToHex(b);
    HexRoundTrip(b);
    Regroup(word, " ", rest);
    WordThenSpace(word, " " + rest);
    LeadingSpace(rest);
    WordThenSpace(word, "");
    assert word + "" == word;
  }

  lemma {:induction false} TokensOfDescribe(bytes: Frame)
    ensures |Tokens(Describe(bytes))| == |bytes|
    ensures forall i | 0 <= i < |bytes| :: Tokens(Describe(bytes))[i] == ByteToHex(bytes[i])
  {
    if bytes != [] {
      var rest := Describe(bytes[1..]);
      TokensAfterByte(bytes[0], rest);
      if |bytes| > 1 {
        TokensOfDescribe(bytes[1..]);
        forall i | 0 < i < |bytes| ensures Tokens(Describe(bytes))[i] == ByteToHex(bytes[i]) {
          assert Tokens(rest)[i - 1] == ByteToHex(bytes[1..][i - 1]);
        }
      }
    }
  }

  lemma HexBytesOfDescribe(bytes: Frame)
    ensures HexBytes(Describe(bytes)) == if bytes == [] then None else Some(bytes)
  {
    TokensOfDescribe(bytes);
    var tokens := Tokens(Describe(bytes));
    forall t | t in tokens ensures IsHexByteToken(t) {
      var i :| 0 <= i < |tokens| && tokens[i] == t;
      HexRoundTrip(bytes[i]);
    }
    forall i | 0 <= i < |bytes| ensures HexValues(tokens)[i] == bytes[i] {
      HexRoundTrip(bytes[i]);
    }
    assert HexValues(tokens) == bytes;
  }

  /** Printing a frame and decoding the line gives the frame back exactly when it has at least
      two bytes and they XOR to 0xFF; every other frame is rejected. */
  lemma DecodeDescribe(bytes: Frame)
    ensures DecodeLine(RECEIVE_PREFIX + Describe(bytes))
            == if |bytes| >= 2 && XorAll(bytes) == 0xFF then Some(bytes) else None
  {
    var line := RECEIVE_PREFIX + Describe(bytes);
    assert line[|RECEIVE_PREFIX|..] == Describe(bytes);
    HexBytesOfDescribe(bytes);
    ValidIffXorIsAllOnes(bytes);
  }

  /** A valid frame with any one byte altered on the wire is not accepted as any frame. */
  lemma CorruptedLineIsRejected(bytes: Frame, i: nat, b: Byte)
    requires DecodeLine(RECEIVE_PREFIX + Describe(bytes)).Some?
    requires i < |bytes| && b != bytes[i]
    ensures DecodeLine(RECEIVE_PREFIX + Describe(bytes[i := b])) == None
  {
    DecodeDescribe(bytes);
    DecodeDescribe(bytes[i := b]);
    ValidIffXorIsAllOnes(bytes);
    ValidIffXorIsAllOnes(bytes[i := b]);
    SingleByteCorruptionIsDetected(bytes, i, b);
  }

  /** Decoding normalises: whatever spacing and letter case a line used, the frame it carries
      is valid and its canonical line decodes to the same frame. */
  lemma DecodeIsStable(line: string)
    requires DecodeLine(line).Some?
    ensures var m := DecodeLine(line).value;
            |m| >= 2 && XorAll(m) == 0xFF && DecodeLine(RECEIVE_PREFIX + Describe(m)) == Some(m)
  {
    var m := DecodeLine(line).value;
    ValidIffXorIsAllOnes(m);
    DecodeDescribe(m);
  }

  // -------------------------------------------------------- lines going out

  /** What the other end reads in a line: the bytes after `SEND `, if it is one. */
  function ReadSend(line: string): Option<Frame>
  {
    if StartsWith(line, "SEND ") then HexBytes(line[5..]) else None
  }

  /** Every line written carries its frame: the prefix, then exactly its bytes. */
  lemma SendCarriesFrame(m: Frame)
    ensures StartsWith(EncodeSend(m), "SEND ")
    ensures ReadSend(EncodeSend(m)) == if m == [] then None else Some(m)
  {
    assert EncodeSend(m)[5..] == Describe(m);
    HexBytesOfDescribe(m);
  }

  lemma DescribeCons(b: Byte, rest: Frame)
    requires rest != []
    ensures Describe([b] + rest) == ByteToHex(b) + " " + Describe(rest)
  {
    assert ([b] + rest)[1..] == rest;
  }

  /** The pulse that closes turnout 1, as it stands on the wire. */
  lemma SendLineInFull()
    ensures EncodeSend([0xB0, 0x00, 0x30, 0x7F]) == "SEND B0 00 30 7F"
  {
    var last: Frame := [0x7F];
    var two: Frame, three: Frame := [0x30, 0x7F], [0x00, 0x30, 0x7F];
    assert Describe(last) == "7F";
    DescribeCons(0x30, last);
    assert [0x30] + last == two;
    DescribeCons(0x00, two);
    assert [0x00] + two == three;
    DescribeCons(0xB0, three);
    assert [0xB0] + three == [0xB0, 0x00, 0x30, 0x7F];
  }

  // ------------------------------------------------ any spelling of a line

  const LOWER_DIGITS: string := "0123456789abcdef"
  const UPPER_DIGITS: string := "0123456789ABCDEF"

  predicate IsDigitOf(c: char, d: int) { 0 <= d < 16 && (c == LOWER_DIGITS[d] || c == UPPER_DIGITS[d]) }

  /** The digits are those of the two alphabets, each with the value of its place. */
  lemma DigitsOfEitherCase(c: char, d: int)
    ensures IsDigitOf(c, d) <==> IsHexDigit(c) && DigitValue(c) == d
  {
  }

  /** A word that is two hex digits of either case, with the value of the two places. */
  ghost predicate Spells(word: string, b: Byte)
  {
    |word| == 2 && exists high, low :: IsDigitOf(word[0], high) && IsDigitOf(word[1], low) && b == 16 * high + low
  }

  lemma SpellingIsRead(word: string, b: Byte)
    ensures Spells(word, b) <==> IsHexByteToken(word) && HexValue(word) == b
  {
    if Spells(word, b) {
      var high, low :| IsDigitOf(word[0], high) && IsDigitOf(word[1], low) && b == 16 * high + low;
      DigitsOfEitherCase(word[0], high);
      DigitsOfEitherCase(word[1], low);
    }
    if IsHexByteToken(word) {
      DigitsOfEitherCase(word[0], DigitValue(word[0]));
      DigitsOfEitherCase(word[1], DigitValue(word[1]));
    }
  }

  /** A blank is a space or one of the five control characters from tab (9) to carriage return (13). */
  predicate IsBlank(c: char) { c as int == 32 || 9 <= c as int <= 13 }

  /** A word holds no blank; words are held apart by one or more blanks. */
  predicate IsWord(word: string) { word != [] && forall c | c in word :: !IsBlank(c) }

  predicate IsGap(gap: string) { gap != [] && forall c | c in gap :: IsBlank(c) }

  /** words[0] gaps[0] words[1] gaps[1] ... */
  function Spaced(words: seq<string>, gaps: seq<string>): string
    requires |gaps| == |words|
  {
    if words == [] then "" else words[0] + gaps[0] + Spaced(words[1..], gaps[1..])
  }

  lemma {:induction false} GapIsSkipped(gap: string, rest: string)
    requires forall c | c in gap :: IsSpace(c)
    ensures Tokens(gap + rest) == Tokens(rest)
  {
    if gap == [] {
      assert gap + rest == rest;
    } else {
      assert gap[0] in gap;
      assert (gap + rest)[0] == gap[0] && (gap + rest)[1..] == gap[1..] + rest;
      assert SkipSpace(gap + rest) == SkipSpace(gap[1..] + rest);
      TokensSkip(gap + rest);
      TokensSkip(gap[1..] + rest);
      GapIsSkipped(gap[1..], rest);
    }
  }

  /** Whatever blanks hold the words apart, the tokens are the words. */
  lemma {:induction false} TokensOfSpaced(words: seq<string>, gaps: seq<string>)
    requires |gaps| == |words|
    requires (forall w | w in words :: IsWord(w)) && (forall g | g in gaps :: IsGap(g))
    ensures Tokens(Spaced(words, gaps)) == words
  {
    if words != [] {
      var rest := Spaced(words[1..], gaps[1..]);
      TokensOfSpaced(words[1..], gaps[1..]);
      assert words[0] in words && gaps[0] in gaps && gaps[0][0] in gaps[0];
      Regroup(words[0], gaps[0], rest);
      WordThenSpace(words[0], gaps[0] + rest);
      GapIsSkipped(gaps[0], rest);
      assert words == [words[0]] + words[1..];
    }
  }

  /** A body is read as these bytes exactly when its words, however spaced and in either case, spell
      them one by one; one malformed word and nothing is read. */
  lemma BodyIsReadIffSpelled(words: seq<string>, gaps: seq<string>, bytes: Frame)
    requires |gaps| == |words| && words != []
    requires (forall w | w in words :: IsWord(w)) && (forall g | g in gaps :: IsGap(g))
    ensures HexBytes(Spaced(words, gaps)) == Some(bytes)
            <==> |bytes| == |words| && forall i | 0 <= i < |words| :: Spells(words[i], bytes[i])
    ensures (exists w :: w in words && forall b: Byte :: !Spells(w, b)) ==> HexBytes(Spaced(words, gaps)) == None
  {
    TokensOfSpaced(words, gaps);
    forall i, b: Byte | 0 <= i < |words|
      ensures Spells(words[i], b) <==> IsHexByteToken(words[i]) && HexValue(words[i]) == b
    {
      SpellingIsRead(words[i], b);
    }
    SpelledAreRead(words, bytes);
    if AllHex(words) {
      forall w | w in words ensures exists b: Byte :: Spells(w, b) {
        SpellingIsRead(w, HexValue(w));
      }
    }
  }

  lemma SpelledAreRead(words: seq<string>, bytes: Frame)
    requires forall i, b: Byte | 0 <= i < |words| ::
               Spells(words[i], b) <==> IsHexByteToken(words[i]) && HexValue(words[i]) == b
    ensures AllHex(words) && HexValues(words) == bytes
            <==> |bytes| == |words| && forall i | 0 <= i < |words| :: Spells(words[i], bytes[i])
  {
    if |bytes| == |words| && forall i | 0 <= i < |words| :: Spells(words[i], bytes[i]) {
      forall w | w in words ensures IsHexByteToken(w) {
        var i :| 0 <= i < |words| && words[i] == w;
        assert Spells(words[i], bytes[i]);
      }
      assert HexValues(words) == bytes;
    }
    if AllHex(words) && HexValues(words) == bytes {
      forall i | 0 <= i < |words| ensures Spells(words[i], bytes[i]) {
        assert words[i] in words && HexValue(words[i]) == bytes[i];
      }
    }
  }
}
