/** The packed little-endian layout of both packets, and the parser that undoes it. */
module PacketLayout {
  import opened LittleEndian
  import opened Packets

  type Word = bv64

  const HEADER_SIZE: nat := 24
  const TELEOP_SIZE: nat := 224
  const FEEDBACK_SIZE: nat := 340

  // ---------------------------------------------------------------- header

  function HeaderBytes(h: Header): (bytes: seq<bv8>)
    ensures |bytes| == HEADER_SIZE
  {
    Bytes32(h.magic) + Bytes16(h.version) + Bytes16(h.packetSize) + Bytes32(h.seqNo) + Bytes64(h.sendTimeNs)
    + [h.armSide, h.mode, h.enable, h.estop]
  }

  function ParseHeader(bytes: seq<bv8>): Header
    requires |bytes| == HEADER_SIZE
  {
    Header(Word32(bytes[0..4]), Word16(bytes[4..6]), Word16(bytes[6..8]), Word32(bytes[8..12]), Word64(bytes[12..20]),
           bytes[20], bytes[21], bytes[22], bytes[23])
  }

  lemma HeaderOfBytes(h: Header)
    ensures ParseHeader(HeaderBytes(h)) == h
  {
    hide Bytes16, Bytes32, Bytes64, Word16, Word32, Word64;
    var bytes := HeaderBytes(h);
    assert bytes[0..4] == Bytes32(h.magic) && bytes[4..6] == Bytes16(h.version) && bytes[6..8] == Bytes16(h.packetSize);
    assert bytes[8..12] == Bytes32(h.seqNo) && bytes[12..20] == Bytes64(h.sendTimeNs);
    Word32OfBytes(h.magic);
    Word16OfBytes(h.version);
    Word16OfBytes(h.packetSize);
    Word32OfBytes(h.seqNo);
    Word64OfBytes(h.sendTimeNs);
  }

  lemma BytesOfHeader(bytes: seq<bv8>)
    requires |bytes| == HEADER_SIZE
    ensures HeaderBytes(ParseHeader(bytes)) == bytes
  {
    hide Bytes16, Bytes32, Bytes64, Word16, Word32, Word64;
    Bytes32OfWord(bytes[0..4]);
    Bytes16OfWord(bytes[4..6]);
    Bytes16OfWord(bytes[6..8]);
    Bytes32OfWord(bytes[8..12]);
    Bytes64OfWord(bytes[12..20]);
  }

  // ---------------------------------------------------------------- arrays of doubles

  function WordsBytes(words: seq<Word>): (bytes: seq<bv8>)
    ensures |bytes| == 8 * |words|
  {
    if words == [] then [] else Bytes64(words[0]) + WordsBytes(words[1..])
  }

  function ParseWords(bytes: seq<bv8>): (words: seq<Word>)
    requires |bytes| % 8 == 0
    ensures |words| == |bytes| / 8
  {
    if bytes == [] then [] else [Word64(bytes[..8])] + ParseWords(bytes[8..])
  }

  lemma {:induction false} WordsOfBytes(words: seq<Word>)
    ensures ParseWords(WordsBytes(words)) == words
  {
    hide Bytes64, Word64;
    if words != [] {
      var bytes := WordsBytes(words);
      assert bytes[..8] == Bytes64(words[0]) && bytes[8..] == WordsBytes(words[1..]);
      Word64OfBytes(words[0]);
      WordsOfBytes(words[1..]);
    }
  }

  lemma {:induction false} BytesOfWords(bytes: seq<bv8>)
    requires |bytes| % 8 == 0
    ensures WordsBytes(ParseWords(bytes)) == bytes
  {
    hide Bytes64, Word64;
    if bytes != [] {
      Bytes64OfWord(bytes[..8]);
      BytesOfWords(bytes[8..]);
      var words := ParseWords(bytes);
      assert words[0] == Word64(bytes[..8]) && words[1..] == ParseWords(bytes[8..]);
    }
  }

  // ---------------------------------------------------------------- teleop packets

  /** Everything the checksum covers. */
  function TeleopBody(p: TeleopPacket<Word>): (bytes: seq<bv8>)
    requires p.WellFormed()
    ensures |bytes| == TELEOP_SIZE - 4
  {
    HeaderBytes(p.header) + [p.armDof, p.handDof, p.reserved0, p.reserved1]
    + WordsBytes(p.armPos + p.armVel + p.handPos + p.handVel)
  }

  function TeleopBytes(p: TeleopPacket<Word>): (bytes: seq<bv8>)
    requires p.WellFormed()
    ensures |bytes| == TELEOP_SIZE
  {
    TeleopBody(p) + Bytes32(p.crc32)
  }

  function ParseTeleop(bytes: seq<bv8>): (p: TeleopPacket<Word>)
    requires |bytes| == TELEOP_SIZE
    ensures p.WellFormed()
  {
    var words := ParseWords(bytes[28..220]);
    TeleopPacket(ParseHeader(bytes[..24]), bytes[24], bytes[25], bytes[26], bytes[27],
                 words[..8], words[8..16], words[16..20], words[20..], Word32(bytes[220..]))
  }

  lemma TeleopOfBytes(p: TeleopPacket<Word>)
    requires p.WellFormed()
    ensures ParseTeleop(TeleopBytes(p)) == p
  {
    hide HeaderBytes, ParseHeader, WordsBytes, ParseWords, Bytes32, Word32;
    var bytes, words := TeleopBytes(p), p.armPos + p.armVel + p.handPos + p.handVel;
    assert bytes[..24] == HeaderBytes(p.header) && bytes[28..220] == WordsBytes(words) && bytes[220..] == Bytes32(p.crc32);
    HeaderOfBytes(p.header);
    WordsOfBytes(words);
    Word32OfBytes(p.crc32);
  }

  lemma BytesOfTeleop(bytes: seq<bv8>)
    requires |bytes| == TELEOP_SIZE
    ensures TeleopBytes(ParseTeleop(bytes)) == bytes
  {
    hide HeaderBytes, ParseHeader, WordsBytes, ParseWords, Bytes32, Word32;
    var p, words := ParseTeleop(bytes), ParseWords(bytes[28..220]);
    assert p.armPos + p.armVel + p.handPos + p.handVel == words;
    BytesOfHeader(bytes[..24]);
    BytesOfWords(bytes[28..220]);
    Bytes32OfWord(bytes[220..]);
  }

  // ---------------------------------------------------------------- feedback packets

  function FeedbackBody(p: FeedbackPacket<Word>): (bytes: seq<bv8>)
    requires p.WellFormed()
    ensures |bytes| == FEEDBACK_SIZE - 4
  {
    HeaderBytes(p.header) + [p.armDof, p.handDof, p.safetyState, p.linkOk]
    + Bytes32(p.echoCmdSeq) + Bytes64(p.echoCmdSendTimeNs) + Bytes64(p.cmdHoldNs)
    + WordsBytes(p.armPos + p.armVel + p.armTau + p.handPos + p.handVel + p.handTau)
  }

  function FeedbackBytes(p: FeedbackPacket<Word>): (bytes: seq<bv8>)
    requires p.WellFormed()
    ensures |bytes| == FEEDBACK_SIZE
  {
    FeedbackBody(p) + Bytes32(p.crc32)
  }

  function ParseFeedback(bytes: seq<bv8>): (p: FeedbackPacket<Word>)
    requires |bytes| == FEEDBACK_SIZE
    ensures p.WellFormed()
  {
    var words := ParseWords(bytes[48..336]);
    FeedbackPacket(ParseHeader(bytes[..24]), bytes[24], bytes[25], bytes[26], bytes[27],
                   Word32(bytes[28..32]), Word64(bytes[32..40]), Word64(bytes[40..48]),
                   words[..8], words[8..16], words[16..24], words[24..28], words[28..32], words[32..],
                   Word32(bytes[336..]))
  }

  lemma FeedbackOfBytes(p: FeedbackPacket<Word>)
    requires p.WellFormed()
    ensures ParseFeedback(FeedbackBytes(p)) == p
  {
    hide HeaderBytes, ParseHeader, WordsBytes, ParseWords, Bytes32, Word32, Bytes64, Word64;
    var bytes := FeedbackBytes(p);
    var words := p.armPos + p.armVel + p.armTau + p.handPos + p.handVel + p.handTau;
    assert bytes[..24] == HeaderBytes(p.header) && bytes[28..32] == Bytes32(p.echoCmdSeq);
    assert bytes[32..40] == Bytes64(p.echoCmdSendTimeNs) && bytes[40..48] == Bytes64(p.cmdHoldNs);
    assert bytes[48..336] == WordsBytes(words) && bytes[336..] == Bytes32(p.crc32);
    HeaderOfBytes(p.header);
    Word32OfBytes(p.echoCmdSeq);
    Word64OfBytes(p.echoCmdSendTimeNs);
    Word64OfBytes(p.cmdHoldNs);
    WordsOfBytes(words);
    Word32OfBytes(p.crc32);
  }

  lemma BytesOfFeedback(bytes: seq<bv8>)
    requires |bytes| == FEEDBACK_SIZE
    ensures FeedbackBytes(ParseFeedback(bytes)) == bytes
  {
    hide HeaderBytes, ParseHeader, WordsBytes, ParseWords, Bytes32, Word32, Bytes64, Word64;
    var p, words := ParseFeedback(bytes), ParseWords(bytes[48..336]);
    assert p.armPos + p.armVel + p.armTau + p.handPos + p.handVel + p.handTau == words;
    BytesOfHeader(bytes[..24]);
    Bytes32OfWord(bytes[28..32]);
    Bytes64OfWord(bytes[32..40]);
    Bytes64OfWord(bytes[40..48]);
    BytesOfWords(bytes[48..336]);
    Bytes32OfWord(bytes[336..]);
  }
}
