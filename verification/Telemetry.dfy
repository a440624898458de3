/** The telemetry publisher: header fill, running number and checksum of each datagram. */
module Telemetry {
  import opened Crc32
  import opened Crc32Residue
  import opened LittleEndian

  const TELEMETRY_MAGIC: bv32 := 0x5054_414F
  const TELEMETRY_VERSION: bv16 := 1
  const TELEMETRY_SIZE: nat := 228

  /** `flags` are the twelve single-byte fields, `samples` the 3 x 16 floats as 32-bit words. */
  datatype TelemetryPacket = TelemetryPacket(
    magic: bv32,
    version: bv16,
    packetSize: bv16,
    seqNo: bv32,
    monotonicTimeNs: bv64,
    flags: seq<bv8>,
    samples: seq<bv32>,
    crc32: bv32)
  {
    predicate WellFormed() {
      |flags| == 12 && |samples| == 48
    }
  }

  function SampleBytes(samples: seq<bv32>): (bytes: seq<bv8>)
    ensures |bytes| == 4 * |samples|
  {
    if samples == [] then [] else Bytes32(samples[0]) + SampleBytes(samples[1..])
  }

  function Body(p: TelemetryPacket): (bytes: seq<bv8>)
    requires p.WellFormed()
    ensures |bytes| == TELEMETRY_SIZE - 4
  {
    Bytes32(p.magic) + Bytes16(p.version) + Bytes16(p.packetSize) + Bytes32(p.seqNo) + Bytes64(p.monotonicTimeNs)
    + p.flags + SampleBytes(p.samples)
  }

  /** The number a receiver reads at the fixed offset of `seq`. */
  function SeqOf(datagram: seq<bv8>): bv32
    requires |datagram| == TELEMETRY_SIZE
  {
    Word32(datagram[8..12])
  }

  /** The number after `n`, which wraps with its 32 bits. */
  function Following(n: bv32): bv32 {
    n + 1
  }

  lemma FollowingCounts(n: bv32)
    ensures Following(n) == n + 1
  {
  }

  /** Every datagram checks, and each carries the number after its predecessor's. */
  ghost predicate WellNumbered(wire: seq<seq<bv8>>, next: bv32) {
    && (forall i :: 0 <= i < |wire| ==> |wire[i]| == TELEMETRY_SIZE && Crc(wire[i]) == RESIDUE)
    && (forall i :: 0 <= i < |wire| - 1 ==> SeqOf(wire[i + 1]) == Following(SeqOf(wire[i])))
    && (wire != [] ==> next == Following(SeqOf(wire[|wire| - 1])))
  }

  lemma ChecksummedBodyHasResidue(body: seq<bv8>)
    ensures Crc(body + Bytes32(Crc(body))) == RESIDUE
  {
    hide Crc, Bytes32;
    ResidueIffOwnChecksum(body, Bytes32(Crc(body)));
  }

  lemma SeqOfBody(p: TelemetryPacket, tail: seq<bv8>)
    requires p.WellFormed() && |tail| == 4
    ensures SeqOf(Body(p) + tail) == p.seqNo
  {
    hide Bytes16, Bytes32, Bytes64, Word32, SampleBytes;
    assert (Body(p) + tail)[8..12] == Bytes32(p.seqNo);
    Word32OfBytes(p.seqNo);
  }

  lemma ExtendWire(wire: seq<seq<bv8>>, next: bv32, datagram: seq<bv8>)
    requires WellNumbered(wire, next)
    requires |datagram| == TELEMETRY_SIZE && Crc(datagram) == RESIDUE && SeqOf(datagram) == next
    ensures WellNumbered(wire + [datagram], Following(next))
  {
    hide Crc, SeqOf, Following;
    var longer := wire + [datagram];
    forall i | 0 <= i < |longer| - 1 ensures SeqOf(longer[i + 1]) == Following(SeqOf(longer[i])) {
      if i < |wire| - 1 {
        assert longer[i] == wire[i] && longer[i + 1] == wire[i + 1];
      }
    }
  }

  class TelemetryPublisher {
    var open: bool
    var seqNo: bv32
    ghost var wire: seq<seq<bv8>>

    ghost predicate Valid()
      reads this
    {
      WellNumbered(wire, seqNo)
    }

    constructor ()
      ensures Valid() && wire == [] && seqNo == 0 && !open
    {
      open, seqNo, wire := false, 0, [];
    }

    method Start()
      requires Valid()
      modifies this
      ensures Valid() && open && wire == old(wire) && seqNo == old(seqNo)
    {
      open := true;
    }

    /** Sends nothing while the socket is closed; otherwise stamps, numbers and checksums a copy of `packet`. */
    method Publish(packet: TelemetryPacket)
      requires Valid() && packet.WellFormed()
      modifies this
      ensures Valid() && open == old(open)
      ensures !open ==> wire == old(wire) && seqNo == old(seqNo)
      ensures open ==>
                var body := Body(packet.(magic := TELEMETRY_MAGIC, version := TELEMETRY_VERSION, packetSize := 228,
                                         seqNo := old(seqNo)));
                wire == old(wire) + [body + Bytes32(Crc(body))]
    {
      hide Crc, Body, Bytes32, SeqOf, WellNumbered, Following;
      if !open {
        return;
      }
      var toSend := packet.(magic := TELEMETRY_MAGIC, version := TELEMETRY_VERSION, packetSize := 228, seqNo := seqNo);
      seqNo := Following(seqNo);
      var crc := BranchingCrc32(Body(toSend));
      ChecksummedBodyHasResidue(Body(toSend));
      SeqOfBody(toSend, Bytes32(crc));
      ExtendWire(wire, toSend.seqNo, Body(toSend) + Bytes32(crc));
      wire := wire + [Body(toSend) + Bytes32(crc)];
    }
  }
}
