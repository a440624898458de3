/**
 The two datagrams of the teleoperation loop.

 `D` is what a double is to the reader of the packet: an opaque 64-bit word to the codec, a number to
 the controllers.  The C arrays have fixed sizes; `WellFormed` states them.
 */
module Packets {

  const TELEOP_MAGIC: bv32 := 0x4F41_5754
  const TELEOP_VERSION: bv16 := 1
  const FEEDBACK_MAGIC: bv32 := 0x4246_414F
  const FEEDBACK_VERSION: bv16 := 1

  const ARM_SLOTS: nat := 8
  const HAND_SLOTS: nat := 4

  const UNILATERAL: bv8 := 0
  const BILATERAL: bv8 := 1

  /** The first 24 bytes, laid out alike in both kinds of packet. */
  datatype Header = Header(
    magic: bv32,
    version: bv16,
    packetSize: bv16,
    seqNo: bv32,
    sendTimeNs: bv64,
    armSide: bv8,
    mode: bv8,
    enable: bv8,
    estop: bv8)

  function SeqNumber(h: Header): (n: int)
    ensures 0 <= n < 0x1_0000_0000
  {
    h.seqNo as int
  }

  /** Leader to follower: the commanded joint state of one arm. */
  datatype TeleopPacket<D> = TeleopPacket(
    header: Header,
    armDof: bv8,
    handDof: bv8,
    reserved0: bv8,
    reserved1: bv8,
    armPos: seq<D>,
    armVel: seq<D>,
    handPos: seq<D>,
    handVel: seq<D>,
    crc32: bv32)
  {
    predicate WellFormed() {
      |armPos| == |armVel| == ARM_SLOTS && |handPos| == |handVel| == HAND_SLOTS
    }

    /** The joint counts do not point past the arrays. */
    predicate DofWithinSlots() {
      WellFormed() && armDof as int <= ARM_SLOTS && handDof as int <= HAND_SLOTS
    }
  }

  /** Follower to leader: the measured state of one arm and the command it answers. */
  datatype FeedbackPacket<D> = FeedbackPacket(
    header: Header,
    armDof: bv8,
    handDof: bv8,
    safetyState: bv8,
    linkOk: bv8,
    echoCmdSeq: bv32,
    echoCmdSendTimeNs: bv64,
    cmdHoldNs: bv64,
    armPos: seq<D>,
    armVel: seq<D>,
    armTau: seq<D>,
    handPos: seq<D>,
    handVel: seq<D>,
    handTau: seq<D>,
    crc32: bv32)
  {
    predicate WellFormed() {
      |armPos| == |armVel| == |armTau| == ARM_SLOTS && |handPos| == |handVel| == |handTau| == HAND_SLOTS
    }

    /** The joint counts do not point past the arrays. */
    predicate DofWithinSlots() {
      WellFormed() && armDof as int <= ARM_SLOTS && handDof as int <= HAND_SLOTS
    }
  }
}
