/**
 The joint counts of a packet.  Validation does not look at them, and both controllers use them as
 bounds on the packet's arrays.
 */
module JointCounts {
  import opened PacketCodec
  import opened PacketLayout
  import opened Packets

  /** Every index below the count lies in the array. */
  ghost predicate ReadsInside<D>(values: seq<D>, dof: bv8) {
    forall i :: 0 <= i < dof as int ==> Inside(values, i)
  }

  predicate Inside<D>(values: seq<D>, i: int) {
    0 <= i < |values|
  }

  lemma ReadsInsideIff<D>(values: seq<D>, dof: bv8)
    ensures ReadsInside(values, dof) <==> dof as int <= |values|
  {
    if dof as int > |values| {
      assert !Inside(values, |values|);
    }
  }

  /** Where a control cycle of the follower reads commanded positions. */
  ghost predicate TargetsInside<D>(c: TeleopPacket<D>) {
    ReadsInside(c.armPos, c.armDof) && ReadsInside(c.handPos, c.handDof)
  }

  /** Where a control cycle of the leader reads the follower's joints. */
  ghost predicate ReferencesInside<D>(fb: FeedbackPacket<D>) {
    && ReadsInside(fb.armPos, fb.armDof) && ReadsInside(fb.armTau, fb.armDof)
    && ReadsInside(fb.handPos, fb.handDof) && ReadsInside(fb.handTau, fb.handDof)
  }

  /** The follower stays inside a command's arrays exactly up to 8 arm and 4 hand joints. */
  lemma TargetsInsideIff<D>(c: TeleopPacket<D>)
    requires c.WellFormed()
    ensures TargetsInside(c) <==> c.armDof as int <= 8 && c.handDof as int <= 4
    ensures TargetsInside(c) <==> c.DofWithinSlots()
  {
    ReadsInsideIff(c.armPos, c.armDof);
    ReadsInsideIff(c.handPos, c.handDof);
  }

  /** The leader stays inside a feedback packet's arrays exactly up to 8 arm and 4 hand joints. */
  lemma ReferencesInsideIff<D>(fb: FeedbackPacket<D>)
    requires fb.WellFormed()
    ensures ReferencesInside(fb) <==> fb.armDof as int <= 8 && fb.handDof as int <= 4
    ensures ReferencesInside(fb) <==> fb.DofWithinSlots()
  {
    ReadsInsideIff(fb.armPos, fb.armDof);
    ReadsInsideIff(fb.armTau, fb.armDof);
    ReadsInsideIff(fb.handPos, fb.handDof);
    ReadsInsideIff(fb.handTau, fb.handDof);
  }

  /** Whatever joint counts a command is encoded with, it is received with them. */
  lemma CommandCountsPass(p: TeleopPacket<Word>, armDof: bv8, handDof: bv8, sendTimeNs: bv64) returns (bytes: seq<bv8>)
    requires p.WellFormed()
    ensures ReceivedTeleop(bytes).Some?
    ensures ReceivedTeleop(bytes).value.armDof == armDof && ReceivedTeleop(bytes).value.handDof == handDof
    ensures ReceivedTeleop(bytes).value.WellFormed()
  {
    hide ReceivedTeleop, TeleopBytes;
    var counted := p.(armDof := armDof, handDof := handDof);
    TeleopRoundTrip(counted, sendTimeNs);
    bytes := TeleopBytes(EncodedTeleop(counted, sendTimeNs));
  }

  /** Whatever joint counts a feedback packet is encoded with, it is received with them. */
  lemma FeedbackCountsPass(p: FeedbackPacket<Word>, armDof: bv8, handDof: bv8, sendTimeNs: bv64) returns (bytes: seq<bv8>)
    requires p.WellFormed()
    ensures ReceivedFeedback(bytes).Some?
    ensures ReceivedFeedback(bytes).value.armDof == armDof && ReceivedFeedback(bytes).value.handDof == handDof
    ensures ReceivedFeedback(bytes).value.WellFormed()
  {
    hide ReceivedFeedback, FeedbackBytes;
    var counted := p.(armDof := armDof, handDof := handDof);
    FeedbackRoundTrip(counted, sendTimeNs);
    bytes := FeedbackBytes(EncodedFeedback(counted, sendTimeNs));
  }

  /** A command that validates and sends the follower's cycle past the array of arm positions. */
  lemma NineJointsOverrun(p: TeleopPacket<Word>, sendTimeNs: bv64) returns (bytes: seq<bv8>)
    requires p.WellFormed()
    ensures ReceivedTeleop(bytes).Some? && !TargetsInside(ReceivedTeleop(bytes).value)
  {
    hide ReceivedTeleop, TargetsInside;
    bytes := CommandCountsPass(p, 9, 0, sendTimeNs);
    TargetsInsideIff(ReceivedTeleop(bytes).value);
  }
}
