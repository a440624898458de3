/**
 Encoding and validation of both packet kinds.

 `encode` and `decode_and_validate` write into the packet they are given, so a packet in flight is
 an object here.  What acceptance means is stated once, on bytes, for both kinds.
 */
module PacketCodec {
  import opened Wrappers
  import opened Crc32
  import opened Crc32Errors
  import opened Crc32Residue
  import opened LittleEndian
  import opened Packets
  import opened PacketLayout

  // ---------------------------------------------------------------- frames

  datatype Kind = Teleop | Feedback
  {
    function Size(): nat {
      if Teleop? then TELEOP_SIZE else FEEDBACK_SIZE
    }

    function Stamp(h: Header, sendTimeNs: bv64): Header {
      if Teleop? then h.(magic := TELEOP_MAGIC, version := TELEOP_VERSION, packetSize := 224, sendTimeNs := sendTimeNs)
      else h.(magic := FEEDBACK_MAGIC, version := FEEDBACK_VERSION, packetSize := 340, sendTimeNs := sendTimeNs)
    }

    predicate HeaderOk(h: Header) {
      if Teleop? then h.magic == TELEOP_MAGIC && h.version == TELEOP_VERSION && h.packetSize == 224
      else h.magic == FEEDBACK_MAGIC && h.version == FEEDBACK_VERSION && h.packetSize == 340
    }
  }

  /** A datagram that passes as `kind`: its size, its header, and the checksum of all that precedes the last four bytes. */
  predicate FrameAccepted(kind: Kind, bytes: seq<bv8>) {
    && |bytes| == kind.Size()
    && kind.HeaderOk(ParseHeader(bytes[..HEADER_SIZE]))
    && bytes[kind.Size() - 4..] == Bytes32(Crc(bytes[..kind.Size() - 4]))
  }

  /** An accepted frame is recognised by the checksum of the whole frame. */
  lemma AcceptedFrameHasResidue(kind: Kind, bytes: seq<bv8>)
    requires |bytes| == kind.Size()
    ensures FrameAccepted(kind, bytes) <==> kind.HeaderOk(ParseHeader(bytes[..HEADER_SIZE])) && Crc(bytes) == RESIDUE
  {
    hide Crc, Bytes32, ParseHeader;
    var n := kind.Size() - 4;
    assert bytes == bytes[..n] + bytes[n..];
    ResidueIffOwnChecksum(bytes[..n], bytes[n..]);
  }

  /** No burst of at most 32 bits turns an accepted frame into another accepted frame. */
  lemma BurstIsRejected(kind: Kind, bytes: seq<bv8>, received: seq<bv8>, start: nat)
    requires FrameAccepted(kind, bytes)
    requires received != bytes && DifferOnlyWithin(bytes, received, start, 32)
    ensures !FrameAccepted(kind, received)
  {
    hide Crc, FrameAccepted;
    assert |bytes| == kind.Size() by { FrameSize(kind, bytes); }
    AcceptedFrameHasResidue(kind, bytes);
    AcceptedFrameHasResidue(kind, received);
    BurstChangesCrc(bytes, received, start);
  }

  lemma FrameSize(kind: Kind, bytes: seq<bv8>)
    requires FrameAccepted(kind, bytes)
    ensures |bytes| == kind.Size()
  {
  }

  /** Frames that share their first four bytes are not accepted as different kinds. */
  lemma KindsAreDisjoint(a: seq<bv8>, b: seq<bv8>)
    requires |b| >= 4 && FrameAccepted(Teleop, a) && a[..4] == b[..4]
    ensures !FrameAccepted(Feedback, b)
  {
    if |b| == FEEDBACK_SIZE {
      assert a[..HEADER_SIZE][0..4] == a[..4] && b[..HEADER_SIZE][0..4] == b[..4];
      assert ParseHeader(a[..HEADER_SIZE]).magic == ParseHeader(b[..HEADER_SIZE]).magic;
    }
  }

  // ---------------------------------------------------------------- teleop packets

  function EncodedTeleop(p: TeleopPacket<Word>, sendTimeNs: bv64): (e: TeleopPacket<Word>)
    requires p.WellFormed()
    ensures e.WellFormed()
  {
    var stamped := p.(header := Teleop.Stamp(p.header, sendTimeNs));
    stamped.(crc32 := Crc(TeleopBody(stamped)))
  }

  predicate AcceptsTeleop(p: TeleopPacket<Word>)
    requires p.WellFormed()
  {
    Teleop.HeaderOk(p.header) && p.crc32 == Crc(TeleopBody(p))
  }

  /** What the UDP receiver hands on: the parsed packet, if it has the right size and validates. */
  function ReceivedTeleop(bytes: seq<bv8>): Option<TeleopPacket<Word>> {
    if |bytes| == TELEOP_SIZE && AcceptsTeleop(ParseTeleop(bytes)) then Some(ParseTeleop(bytes)) else None
  }

  class TeleopDatagram {
    var packet: TeleopPacket<Word>

    constructor (packet: TeleopPacket<Word>)
      ensures this.packet == packet
    {
      this.packet := packet;
    }

    method Encode(systemNowNs: bv64)
      requires packet.WellFormed()
      modifies this
      ensures packet == EncodedTeleop(old(packet), systemNowNs)
    {
      hide Crc, TeleopBody;
      packet := packet.(header := packet.header.(magic := TELEOP_MAGIC, version := TELEOP_VERSION, packetSize := 224,
                                                 sendTimeNs := systemNowNs));
      packet := packet.(crc32 := 0);
      TeleopBodyIgnoresCrc(packet, old(packet).crc32);
      var crc := MaskedCrc32(TeleopBody(packet));
      packet := packet.(crc32 := crc);
    }

    /** The checksum field is cleared while the checksum is computed, and restored. */
    method DecodeAndValidate() returns (ok: bool)
      requires packet.WellFormed()
      modifies this
      ensures packet == old(packet)
      ensures ok == AcceptsTeleop(packet)
    {
      hide Crc, TeleopBody;
      if packet.header.magic != TELEOP_MAGIC {
        return false;
      }
      if packet.header.version != TELEOP_VERSION {
        return false;
      }
      if packet.header.packetSize != 224 {
        return false;
      }
      var receivedCrc := packet.crc32;
      packet := packet.(crc32 := 0);
      TeleopBodyIgnoresCrc(packet, receivedCrc);
      var calculatedCrc := MaskedCrc32(TeleopBody(packet));
      packet := packet.(crc32 := receivedCrc);
      ok := calculatedCrc == receivedCrc;
    }
  }

  lemma TeleopBodyIgnoresCrc(p: TeleopPacket<Word>, crc: bv32)
    requires p.WellFormed()
    ensures TeleopBody(p.(crc32 := crc)) == TeleopBody(p)
  {
  }

  method ReceiveTeleop(bytes: seq<bv8>) returns (r: Option<TeleopPacket<Word>>)
    ensures r == ReceivedTeleop(bytes)
  {
    r := None;
    if |bytes| == TELEOP_SIZE {
      var datagram := new TeleopDatagram(ParseTeleop(bytes));
      var ok := datagram.DecodeAndValidate();
      if ok {
        r := Some(datagram.packet);
      }
    }
  }

  /** Receiving what was encoded returns it, and encoding leaves all but header stamp and checksum alone. */
  lemma TeleopRoundTrip(p: TeleopPacket<Word>, sendTimeNs: bv64)
    requires p.WellFormed()
    ensures var e := EncodedTeleop(p, sendTimeNs);
            && ReceivedTeleop(TeleopBytes(e)) == Some(e)
            && e == p.(header := Teleop.Stamp(p.header, sendTimeNs), crc32 := e.crc32)
  {
    hide Crc, TeleopBody, TeleopBytes, ParseTeleop;
    var e := EncodedTeleop(p, sendTimeNs);
    TeleopOfBytes(e);
    TeleopBodyIgnoresCrc(p.(header := Teleop.Stamp(p.header, sendTimeNs)), e.crc32);
  }

  /** Validation accepts exactly the packets that encoding at their own send time would leave unchanged. */
  lemma TeleopAcceptedIffOwnEncoding(p: TeleopPacket<Word>)
    requires p.WellFormed()
    ensures AcceptsTeleop(p) <==> p == EncodedTeleop(p, p.header.sendTimeNs)
  {
    hide Crc, TeleopBody;
    TeleopBodyIgnoresCrc(p.(header := Teleop.Stamp(p.header, p.header.sendTimeNs)), p.crc32);
    if p == EncodedTeleop(p, p.header.sendTimeNs) {
      assert p.header == Teleop.Stamp(p.header, p.header.sendTimeNs);
    }
  }

  lemma TeleopReceivedIffFrame(bytes: seq<bv8>)
    ensures ReceivedTeleop(bytes).Some? <==> FrameAccepted(Teleop, bytes)
  {
    hide Crc, TeleopBody, Bytes32, HeaderBytes, ParseHeader, WordsBytes, ParseWords, Word32;
    if |bytes| == TELEOP_SIZE {
      var p := ParseTeleop(bytes);
      BytesOfTeleop(bytes);
      assert bytes[..220] == TeleopBody(p) && bytes[220..] == Bytes32(p.crc32);
      Word32OfBytes(p.crc32);
      Word32OfBytes(Crc(bytes[..220]));
    }
  }

  /** An encoded command damaged only within 32 consecutive bits, its checksum included, is not received. */
  lemma DamagedTeleopIsDropped(p: TeleopPacket<Word>, sendTimeNs: bv64, received: seq<bv8>, start: nat)
    requires p.WellFormed()
    requires var sent := TeleopBytes(EncodedTeleop(p, sendTimeNs));
             received != sent && DifferOnlyWithin(sent, received, start, 32)
    ensures ReceivedTeleop(received) == None
  {
    hide Crc, TeleopBody, TeleopBytes, FrameAccepted, DifferOnlyWithin, ReceivedTeleop, EncodedTeleop;
    var sent := TeleopBytes(EncodedTeleop(p, sendTimeNs));
    TeleopRoundTrip(p, sendTimeNs);
    TeleopReceivedIffFrame(sent);
    TeleopReceivedIffFrame(received);
    BurstIsRejected(Teleop, sent, received, start);
  }

  // ---------------------------------------------------------------- feedback packets

  function EncodedFeedback(p: FeedbackPacket<Word>, sendTimeNs: bv64): (e: FeedbackPacket<Word>)
    requires p.WellFormed()
    ensures e.WellFormed()
  {
    var stamped := p.(header := Feedback.Stamp(p.header, sendTimeNs));
    stamped.(crc32 := Crc(FeedbackBody(stamped)))
  }

  predicate AcceptsFeedback(p: FeedbackPacket<Word>)
    requires p.WellFormed()
  {
    Feedback.HeaderOk(p.header) && p.crc32 == Crc(FeedbackBody(p))
  }

  /** What the leader's feedback callback goes on with. */
  function ReceivedFeedback(bytes: seq<bv8>): Option<FeedbackPacket<Word>> {
    if |bytes| == FEEDBACK_SIZE && AcceptsFeedback(ParseFeedback(bytes)) then Some(ParseFeedback(bytes)) else None
  }

  class FeedbackDatagram {
    var packet: FeedbackPacket<Word>

    constructor (packet: FeedbackPacket<Word>)
      ensures this.packet == packet
    {
      this.packet := packet;
    }

    method Encode(systemNowNs: bv64)
      requires packet.WellFormed()
      modifies this
      ensures packet == EncodedFeedback(old(packet), systemNowNs)
    {
      hide Crc, FeedbackBody;
      packet := packet.(header := packet.header.(magic := FEEDBACK_MAGIC, version := FEEDBACK_VERSION, packetSize := 340,
                                                 sendTimeNs := systemNowNs));
      packet := packet.(crc32 := 0);
      FeedbackBodyIgnoresCrc(packet, old(packet).crc32);
      var crc := MaskedCrc32(FeedbackBody(packet));
      packet := packet.(crc32 := crc);
    }

    method DecodeAndValidate() returns (ok: bool)
      requires packet.WellFormed()
      modifies this
      ensures packet == old(packet)
      ensures ok == AcceptsFeedback(packet)
    {
      hide Crc, FeedbackBody;
      if packet.header.magic != FEEDBACK_MAGIC {
        return false;
      }
      if packet.header.version != FEEDBACK_VERSION {
        return false;
      }
      if packet.header.packetSize != 340 {
        return false;
      }
      var receivedCrc := packet.crc32;
      packet := packet.(crc32 := 0);
      FeedbackBodyIgnoresCrc(packet, receivedCrc);
      var calculatedCrc := MaskedCrc32(FeedbackBody(packet));
      packet := packet.(crc32 := receivedCrc);
      ok := calculatedCrc == receivedCrc;
    }
  }

  lemma FeedbackBodyIgnoresCrc(p: FeedbackPacket<Word>, crc: bv32)
    requires p.WellFormed()
    ensures FeedbackBody(p.(crc32 := crc)) == FeedbackBody(p)
  {
  }

  method ReceiveFeedback(bytes: seq<bv8>) returns (r: Option<FeedbackPacket<Word>>)
    ensures r == ReceivedFeedback(bytes)
  {
    r := None;
    if |bytes| == FEEDBACK_SIZE {
      var datagram := new FeedbackDatagram(ParseFeedback(bytes));
      var ok := datagram.DecodeAndValidate();
      if ok {
        r := Some(datagram.packet);
      }
    }
  }

  lemma FeedbackRoundTrip(p: FeedbackPacket<Word>, sendTimeNs: bv64)
    requires p.WellFormed()
    ensures var e := EncodedFeedback(p, sendTimeNs);
            && ReceivedFeedback(FeedbackBytes(e)) == Some(e)
            && e == p.(header := Feedback.Stamp(p.header, sendTimeNs), crc32 := e.crc32)
  {
    hide Crc, FeedbackBody, FeedbackBytes, ParseFeedback;
    var e := EncodedFeedback(p, sendTimeNs);
    FeedbackOfBytes(e);
    FeedbackBodyIgnoresCrc(p.(header := Feedback.Stamp(p.header, sendTimeNs)), e.crc32);
  }

  lemma FeedbackAcceptedIffOwnEncoding(p: FeedbackPacket<Word>)
    requires p.WellFormed()
    ensures AcceptsFeedback(p) <==> p == EncodedFeedback(p, p.header.sendTimeNs)
  {
    hide Crc, FeedbackBody;
    FeedbackBodyIgnoresCrc(p.(header := Feedback.Stamp(p.header, p.header.sendTimeNs)), p.crc32);
    if p == EncodedFeedback(p, p.header.sendTimeNs) {
      assert p.header == Feedback.Stamp(p.header, p.header.sendTimeNs);
    }
  }

  lemma FeedbackReceivedIffFrame(bytes: seq<bv8>)
    ensures ReceivedFeedback(bytes).Some? <==> FrameAccepted(Feedback, bytes)
  {
    hide Crc, FeedbackBody, Bytes32, HeaderBytes, ParseHeader, WordsBytes, ParseWords, Word32;
    if |bytes| == FEEDBACK_SIZE {
      var p := ParseFeedback(bytes);
      BytesOfFeedback(bytes);
      assert bytes[..336] == FeedbackBody(p) && bytes[336..] == Bytes32(p.crc32);
      Word32OfBytes(p.crc32);
      Word32OfBytes(Crc(bytes[..336]));
    }
  }

  /** Encoded feedback damaged only within 32 consecutive bits, its checksum included, is not received. */
  lemma DamagedFeedbackIsDropped(p: FeedbackPacket<Word>, sendTimeNs: bv64, received: seq<bv8>, start: nat)
    requires p.WellFormed()
    requires var sent := FeedbackBytes(EncodedFeedback(p, sendTimeNs));
             received != sent && DifferOnlyWithin(sent, received, start, 32)
    ensures ReceivedFeedback(received) == None
  {
    hide Crc, FeedbackBody, FeedbackBytes, FrameAccepted, DifferOnlyWithin, ReceivedFeedback, EncodedFeedback;
    var sent := FeedbackBytes(EncodedFeedback(p, sendTimeNs));
    FeedbackRoundTrip(p, sendTimeNs);
    FeedbackReceivedIffFrame(sent);
    FeedbackReceivedIffFrame(received);
    BurstIsRejected(Feedback, sent, received, start);
  }

  /** A datagram received as one kind is not received as the other, even cut or padded to the other's size. */
  lemma TeleopIsNotFeedback(bytes: seq<bv8>, resized: seq<bv8>)
    requires ReceivedTeleop(bytes).Some?
    requires |resized| >= 4 && resized[..4] == bytes[..4]
    ensures ReceivedFeedback(resized) == None
  {
    hide FrameAccepted, AcceptsFeedback;
    TeleopReceivedIffFrame(bytes);
    FeedbackReceivedIffFrame(resized);
    KindsAreDisjoint(bytes, resized);
  }
}
