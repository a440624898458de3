/** Where each field lies in a datagram, and by which bytes the two kinds are known. */
module WireFormat {
  import opened LittleEndian
  import opened PacketCodec
  import opened PacketLayout
  import opened Packets
  import Crc32
  import Telemetry

  // ---------------------------------------------------------------- words

  lemma Bytes16AreLowFirst(x: bv16)
    ensures Bytes16(x) == [(x & 0xFF) as bv8, (x >> 8) as bv8]
  {
  }

  lemma Bytes32AreLowFirst(x: bv32)
    ensures Bytes32(x) == [(x & 0xFF) as bv8, ((x >> 8) & 0xFF) as bv8, ((x >> 16) & 0xFF) as bv8, (x >> 24) as bv8]
  {
  }

  lemma Bytes64AreLowFirst(x: bv64)
    ensures Bytes64(x)[..4] == Bytes32((x & 0xFFFF_FFFF) as bv32) && Bytes64(x)[4..] == Bytes32((x >> 32) as bv32)
  {
    hide Bytes32;
  }

  lemma SliceOfRest(head: seq<bv8>, rest: seq<bv8>, lo: nat, hi: nat)
    requires lo <= hi <= |rest|
    ensures (head + rest)[|head| + lo..|head| + hi] == rest[lo..hi]
  {
  }

  lemma SliceOfSlice(s: seq<bv8>, from: nat, to: nat, lo: nat, hi: nat)
    requires from <= to <= |s| && lo <= hi <= to - from
    ensures s[from..to][lo..hi] == s[from + lo..from + hi]
  {
    var inner, direct := s[from..to][lo..hi], s[from + lo..from + hi];
    assert |inner| == |direct| && forall k :: 0 <= k < hi - lo ==> inner[k] == direct[k];
  }

  lemma {:induction false} WordOffset(words: seq<Word>, i: nat)
    requires i < |words|
    ensures WordsBytes(words)[8 * i..8 * i + 8] == Bytes64(words[i])
  {
    hide Bytes64;
    assert WordsBytes(words) == Bytes64(words[0]) + WordsBytes(words[1..]);
    if i > 0 {
      WordOffset(words[1..], i - 1);
      SliceOfRest(Bytes64(words[0]), WordsBytes(words[1..]), 8 * (i - 1), 8 * (i - 1) + 8);
    }
  }

  // ---------------------------------------------------------------- headers

  /** The first 24 bytes of either kind. */
  predicate HasHeader(bytes: seq<bv8>, h: Header)
    requires |bytes| >= 24
  {
    && bytes[0..4] == Bytes32(h.magic) && bytes[4..6] == Bytes16(h.version) && bytes[6..8] == Bytes16(h.packetSize)
    && bytes[8..12] == Bytes32(h.seqNo) && bytes[12..20] == Bytes64(h.sendTimeNs)
    && bytes[20] == h.armSide && bytes[21] == h.mode && bytes[22] == h.enable && bytes[23] == h.estop
  }

  lemma HeaderOffsets(h: Header)
    ensures HasHeader(HeaderBytes(h), h)
  {
    hide Bytes16, Bytes32, Bytes64;
  }

  // ---------------------------------------------------------------- packets

  lemma TeleopOffsets(p: TeleopPacket<Word>, i: nat)
    requires p.WellFormed()
    ensures var bytes := TeleopBytes(p);
            && HasHeader(bytes, p.header)
            && bytes[24] == p.armDof && bytes[25] == p.handDof && bytes[26] == p.reserved0 && bytes[27] == p.reserved1
            && (i < 8 ==> bytes[28 + 8 * i..36 + 8 * i] == Bytes64(p.armPos[i]))
            && (i < 8 ==> bytes[92 + 8 * i..100 + 8 * i] == Bytes64(p.armVel[i]))
            && (i < 4 ==> bytes[156 + 8 * i..164 + 8 * i] == Bytes64(p.handPos[i]))
            && (i < 4 ==> bytes[188 + 8 * i..196 + 8 * i] == Bytes64(p.handVel[i]))
            && bytes[220..] == Bytes32(p.crc32)
  {
    hide Bytes16, Bytes32, Bytes64, HeaderBytes, WordsBytes;
    var bytes, words := TeleopBytes(p), p.armPos + p.armVel + p.handPos + p.handVel;
    HeaderOffsets(p.header);
    assert bytes[..24] == HeaderBytes(p.header) && bytes[28..220] == WordsBytes(words);
    HeaderStays(bytes, p.header);
    if i < 8 {
      WordInside(bytes, words, 28, i);
      WordInside(bytes, words, 28, 8 + i);
    }
    if i < 4 {
      WordInside(bytes, words, 28, 16 + i);
      WordInside(bytes, words, 28, 20 + i);
    }
  }

  lemma HeaderStays(bytes: seq<bv8>, h: Header)
    requires |bytes| >= 24 && bytes[..24] == HeaderBytes(h)
    ensures HasHeader(bytes, h)
  {
    hide Bytes16, Bytes32, Bytes64, HeaderBytes;
    HeaderOffsets(h);
    var head := bytes[..24];
    assert bytes[0..4] == head[0..4] && bytes[4..6] == head[4..6] && bytes[6..8] == head[6..8];
    assert bytes[8..12] == head[8..12] && bytes[12..20] == head[12..20];
  }

  lemma WordInside(bytes: seq<bv8>, words: seq<Word>, from: nat, i: nat)
    requires i < |words| && from + 8 * |words| <= |bytes| && bytes[from..from + 8 * |words|] == WordsBytes(words)
    ensures bytes[from + 8 * i..from + 8 * i + 8] == Bytes64(words[i])
  {
    hide Bytes64, WordsBytes;
    WordOffset(words, i);
    SliceOfSlice(bytes, from, from + 8 * |words|, 8 * i, 8 * i + 8);
  }

  lemma FeedbackOffsets(p: FeedbackPacket<Word>)
    requires p.WellFormed()
    ensures var bytes := FeedbackBytes(p);
            && HasHeader(bytes, p.header)
            && bytes[24] == p.armDof && bytes[25] == p.handDof && bytes[26] == p.safetyState && bytes[27] == p.linkOk
            && bytes[28..32] == Bytes32(p.echoCmdSeq) && bytes[32..40] == Bytes64(p.echoCmdSendTimeNs)
            && bytes[40..48] == Bytes64(p.cmdHoldNs) && bytes[336..] == Bytes32(p.crc32)
  {
    hide Bytes16, Bytes32, Bytes64, HeaderBytes, WordsBytes, HasHeader;
    var bytes := FeedbackBytes(p);
    assert bytes[..24] == HeaderBytes(p.header) && bytes[28..32] == Bytes32(p.echoCmdSeq);
    assert bytes[32..40] == Bytes64(p.echoCmdSendTimeNs) && bytes[40..48] == Bytes64(p.cmdHoldNs);
    HeaderStays(bytes, p.header);
  }

  lemma FeedbackWords(p: FeedbackPacket<Word>)
    requires p.WellFormed()
    ensures FeedbackBytes(p)[48..336] == WordsBytes(p.armPos + p.armVel + p.armTau + p.handPos + p.handVel + p.handTau)
  {
    hide Bytes32, Bytes64, HeaderBytes, WordsBytes;
  }

  lemma FeedbackArmOffsets(p: FeedbackPacket<Word>, i: nat)
    requires p.WellFormed() && i < 8
    ensures var bytes := FeedbackBytes(p);
            && bytes[48 + 8 * i..56 + 8 * i] == Bytes64(p.armPos[i])
            && bytes[112 + 8 * i..120 + 8 * i] == Bytes64(p.armVel[i])
            && bytes[176 + 8 * i..184 + 8 * i] == Bytes64(p.armTau[i])
  {
    hide Bytes64, WordsBytes, FeedbackBytes;
    var bytes := FeedbackBytes(p);
    var words := p.armPos + p.armVel + p.armTau + p.handPos + p.handVel + p.handTau;
    FeedbackWords(p);
    WordInside(bytes, words, 48, i);
    WordInside(bytes, words, 48, 8 + i);
    WordInside(bytes, words, 48, 16 + i);
  }

  lemma FeedbackHandOffsets(p: FeedbackPacket<Word>, i: nat)
    requires p.WellFormed() && i < 4
    ensures var bytes := FeedbackBytes(p);
            && bytes[240 + 8 * i..248 + 8 * i] == Bytes64(p.handPos[i])
            && bytes[272 + 8 * i..280 + 8 * i] == Bytes64(p.handVel[i])
            && bytes[304 + 8 * i..312 + 8 * i] == Bytes64(p.handTau[i])
  {
    hide Bytes64, WordsBytes, FeedbackBytes;
    var bytes := FeedbackBytes(p);
    var words := p.armPos + p.armVel + p.armTau + p.handPos + p.handVel + p.handTau;
    FeedbackWords(p);
    WordInside(bytes, words, 48, 24 + i);
    WordInside(bytes, words, 48, 28 + i);
    WordInside(bytes, words, 48, 32 + i);
  }

  // ---------------------------------------------------------------- the marks of the two kinds

  lemma MarksAreBytes()
    ensures Bytes32(TELEOP_MAGIC) == [0x54, 0x57, 0x41, 0x4F] && Bytes32(FEEDBACK_MAGIC) == [0x4F, 0x41, 0x46, 0x42]
    ensures Bytes16(TELEOP_VERSION) == [1, 0] && Bytes16(FEEDBACK_VERSION) == [1, 0]
    ensures Bytes16(224) == [0xE0, 0x00] && Bytes16(340) == [0x54, 0x01]
  {
  }

  lemma HeaderIsInBytes(bytes: seq<bv8>)
    requires |bytes| >= 24
    ensures HasHeader(bytes, ParseHeader(bytes[..24]))
  {
    hide HasHeader, ParseHeader, HeaderBytes;
    BytesOfHeader(bytes[..24]);
    HeaderStays(bytes, ParseHeader(bytes[..24]));
  }

  /** Every command that is received begins with its magic, version 1 and size 224. */
  lemma AcceptedTeleopBegins(bytes: seq<bv8>)
    requires FrameAccepted(Teleop, bytes)
    ensures |bytes| == 224 && bytes[..8] == [0x54, 0x57, 0x41, 0x4F, 0x01, 0x00, 0xE0, 0x00]
  {
    hide Crc32.Crc, ParseHeader, Bytes32, Bytes16, Bytes64;
    HeaderIsInBytes(bytes);
    MarksAreBytes();
    assert bytes[..8] == bytes[0..4] + bytes[4..6] + bytes[6..8];
  }

  /** Every feedback packet that is received begins with its magic, version 1 and size 340. */
  lemma AcceptedFeedbackBegins(bytes: seq<bv8>)
    requires FrameAccepted(Feedback, bytes)
    ensures |bytes| == 340 && bytes[..8] == [0x4F, 0x41, 0x46, 0x42, 0x01, 0x00, 0x54, 0x01]
  {
    hide Crc32.Crc, ParseHeader, Bytes32, Bytes16, Bytes64;
    HeaderIsInBytes(bytes);
    MarksAreBytes();
    assert bytes[..8] == bytes[0..4] + bytes[4..6] + bytes[6..8];
  }

  /** Encoding stamps magic, version, size and send time, and leaves number, side, mode and flags alone. */
  lemma EncodingStamps(h: Header, sendTimeNs: bv64)
    ensures Teleop.Stamp(h, sendTimeNs)
         == Header(0x4F41_5754, 1, 224, h.seqNo, sendTimeNs, h.armSide, h.mode, h.enable, h.estop)
    ensures Feedback.Stamp(h, sendTimeNs)
         == Header(0x4246_414F, 1, 340, h.seqNo, sendTimeNs, h.armSide, h.mode, h.enable, h.estop)
  {
  }

  // ---------------------------------------------------------------- telemetry

  lemma {:induction false} SampleOffset(samples: seq<bv32>, i: nat)
    requires i < |samples|
    ensures Telemetry.SampleBytes(samples)[4 * i..4 * i + 4] == Bytes32(samples[i])
  {
    hide Bytes32;
    assert Telemetry.SampleBytes(samples) == Bytes32(samples[0]) + Telemetry.SampleBytes(samples[1..]);
    if i > 0 {
      SampleOffset(samples[1..], i - 1);
      SliceOfRest(Bytes32(samples[0]), Telemetry.SampleBytes(samples[1..]), 4 * (i - 1), 4 * (i - 1) + 4);
    }
  }

  lemma TelemetryOffsets(p: Telemetry.TelemetryPacket, i: nat)
    requires p.WellFormed()
    ensures var body := Telemetry.Body(p);
            && body[0..4] == Bytes32(p.magic) && body[4..6] == Bytes16(p.version) && body[6..8] == Bytes16(p.packetSize)
            && body[8..12] == Bytes32(p.seqNo) && body[12..20] == Bytes64(p.monotonicTimeNs) && body[20..32] == p.flags
            && (i < 48 ==> body[32 + 4 * i..36 + 4 * i] == Bytes32(p.samples[i]))
    ensures Bytes32(Telemetry.TELEMETRY_MAGIC) == [0x4F, 0x41, 0x54, 0x50] && Telemetry.TELEMETRY_VERSION == 1
  {
    hide Bytes64, Telemetry.SampleBytes;
    var body := Telemetry.Body(p);
    assert body[32..] == Telemetry.SampleBytes(p.samples);
    if i < 48 {
      SampleOffset(p.samples, i);
      SliceOfSlice(body, 32, |body|, 4 * i, 4 * i + 4);
    }
  }
}
