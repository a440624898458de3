/** Joint states on their way between the two sides: what one measures is what the other works with. */
module JointExchange {
  import opened Doubles
  import opened FollowerCycle
  import opened Packets
  import opened TeleopStateBuffer
  import LeaderControl
  import LeaderCycle
  import LeaderGate

  // ---------------------------------------------------------------- leader to follower

  /** A size cut to a byte. */
  function Cut(n: nat): (r: nat)
    ensures r <= n
  {
    n % 256
  }

  lemma CutIsExact(n: nat)
    ensures n < 256 ==> Cut(n) == n
  {
  }

  /** The position copied into a slot: the first `dof` joints, then zeros. */
  function PositionAt(joints: seq<Reference>, dof: nat, i: nat): Double
    requires dof <= |joints|
  {
    if i < dof then joints[i].position else Zero()
  }

  function VelocityAt(joints: seq<Reference>, dof: nat, i: nat): Double
    requires dof <= |joints|
  {
    if i < dof then joints[i].velocity else Zero()
  }

  /** The joint count as the packet's byte holds it. */
  function DofByte(n: nat): bv8 {
    if n == 0 then 0 else DofByte(n - 1) + 1
  }

  lemma {:induction false} DofByteTruncates(n: nat)
    ensures DofByte(n) as int == Cut(n)
  {
    if n > 0 {
      DofByteTruncates(n - 1);
      NextByte(DofByte(n - 1));
      NextRemainder(n);
    }
  }

  lemma NextByte(b: bv8)
    ensures (b + 1) as int == if b as int == 255 then 0 else b as int + 1
  {
    assert b == 255 <==> b as int == 255;
  }

  lemma NextRemainder(n: nat)
    requires n > 0
    ensures Cut(n) == if Cut(n - 1) == 255 then 0 else Cut(n - 1) + 1
  {
  }

  /** Copies a joint group into the packet's zeroed arrays, as far as the count says and the array goes. */
  method FillGroup(joints: seq<Reference>, dof: nat, slots: nat) returns (pos: seq<Double>, vel: seq<Double>)
    requires dof <= |joints|
    ensures |pos| == |vel| == slots
    ensures forall i :: 0 <= i < slots ==> pos[i] == PositionAt(joints, dof, i) && vel[i] == VelocityAt(joints, dof, i)
  {
    pos := seq(slots, _ => Zero());
    vel := pos;
    var i := 0;
    while i < dof && i < slots
      invariant 0 <= i <= dof && i <= slots
      invariant |pos| == |vel| == slots
      invariant forall k :: 0 <= k < i ==> pos[k] == joints[k].position && vel[k] == joints[k].velocity
      invariant forall k :: i <= k < slots ==> pos[k] == Zero() && vel[k] == Zero()
    {
      pos := pos[i := joints[i].position];
      vel := vel[i := joints[i].velocity];
      i := i + 1;
    }
  }

  /**
   The command of one arm before the codec stamps it.  The counts are the group sizes cut to a byte;
   what follows from them is `CommandCarriesJoints`.
   */
  method FillCommand(gate: LeaderGate.Gate, armSide: bv8, seqNo: bv32, arm: seq<Reference>, hand: seq<Reference>)
    returns (c: Command)
    ensures c.WellFormed() && c.armDof as int == Cut(|arm|) && c.handDof as int == Cut(|hand|)
    ensures forall i :: 0 <= i < ARM_SLOTS ==>
              c.armPos[i] == PositionAt(arm, Cut(|arm|), i) && c.armVel[i] == VelocityAt(arm, Cut(|arm|), i)
    ensures forall i :: 0 <= i < HAND_SLOTS ==>
              c.handPos[i] == PositionAt(hand, Cut(|hand|), i) && c.handVel[i] == VelocityAt(hand, Cut(|hand|), i)
    ensures c.header.armSide == armSide && c.header.seqNo == seqNo && c.header.estop == 0
    ensures c.header.mode == if gate.requested then 1 else 0
    ensures c.header.enable == if gate.commandEnabled then 1 else 0
  {
    hide DofByte, PositionAt, VelocityAt, Cut;
    DofByteTruncates(|arm|);
    DofByteTruncates(|hand|);
    var armPos, armVel := FillGroup(arm, Cut(|arm|), ARM_SLOTS);
    var handPos, handVel := FillGroup(hand, Cut(|hand|), HAND_SLOTS);
    var header := Header(0, 0, 0, seqNo, 0, armSide, LeaderGate.PacketMode(gate), LeaderGate.PacketEnable(gate), 0);
    c := TeleopPacket(header, DofByte(|arm|), DofByte(|hand|), 0, 0, armPos, armVel, handPos, handVel, 0);
  }

  /** The packet of an arm, as far as `FillCommand` promises. */
  ghost predicate IsFilled(c: Command, arm: seq<Reference>, hand: seq<Reference>) {
    && c.WellFormed() && c.armDof as int == Cut(|arm|) && c.handDof as int == Cut(|hand|)
    && (forall i :: 0 <= i < ARM_SLOTS ==> c.armPos[i] == PositionAt(arm, Cut(|arm|), i))
    && (forall i :: 0 <= i < HAND_SLOTS ==> c.handPos[i] == PositionAt(hand, Cut(|hand|), i))
  }

  lemma CommandCountsFitIff(c: Command, arm: seq<Reference>, hand: seq<Reference>)
    requires IsFilled(c, arm, hand)
    ensures c.DofWithinSlots() <==> Cut(|arm|) <= ARM_SLOTS && Cut(|hand|) <= HAND_SLOTS
  {
    hide Cut, PositionAt;
  }

  /** Groups within the packet's arrays arrive as the follower's targets, arm first, none missing. */
  lemma CommandCarriesJoints(c: Command, arm: seq<Reference>, hand: seq<Reference>)
    requires IsFilled(c, arm, hand) && |arm| <= ARM_SLOTS && |hand| <= HAND_SLOTS
    ensures c.DofWithinSlots() && Targets(c) == PositionsOf(arm + hand)
  {
    hide Cut;
    CommandCountsFitIff(c, arm, hand);
    CutIsExact(|arm|);
    CutIsExact(|hand|);
    FilledPositions(c.armPos, arm);
    FilledPositions(c.handPos, hand);
    PositionsOfBoth(arm, hand);
    hide PositionsOf, PositionAt;
  }

  lemma FilledPositions(values: seq<Double>, joints: seq<Reference>)
    requires |joints| <= |values|
    requires forall i :: 0 <= i < |values| ==> values[i] == PositionAt(joints, |joints|, i)
    ensures values[..|joints|] == PositionsOf(joints)
  {
  }

  lemma PositionsOfBoth(a: seq<Reference>, b: seq<Reference>)
    ensures PositionsOf(a + b) == PositionsOf(a) + PositionsOf(b)
  {
  }

  // ---------------------------------------------------------------- follower to leader

  function MeasuredPositions(joints: seq<JointState>): seq<Double> {
    seq(|joints|, i requires 0 <= i < |joints| => joints[i].position)
  }

  function MeasuredEfforts(joints: seq<JointState>): seq<Double> {
    seq(|joints|, i requires 0 <= i < |joints| => joints[i].effort)
  }

  /** Every feedback packet the follower builds satisfies what the leader's cycle asks of it. */
  lemma FeedbackFits(x: Context, arm: seq<JointState>, hand: seq<JointState>)
    ensures FeedbackOf(x, arm, hand).DofWithinSlots()
  {
    hide Positions, Velocities, Efforts;
  }

  /** The references a leader takes are the joints the follower measured, as far as the packet holds them. */
  lemma FeedbackCarriesJoints(x: Context, arm: seq<JointState>, hand: seq<JointState>)
    ensures FeedbackOf(x, arm, hand).DofWithinSlots()
    ensures LeaderCycle.ReferencesOf(FeedbackOf(x, arm, hand))
         == LeaderControl.References(
              MeasuredPositions(arm[..Slots(arm, ARM_SLOTS)]), MeasuredPositions(hand[..Slots(hand, HAND_SLOTS)]),
              MeasuredEfforts(arm[..Slots(arm, ARM_SLOTS)]), MeasuredEfforts(hand[..Slots(hand, HAND_SLOTS)]))
  {
    FeedbackFits(x, arm, hand);
    GroupCarried(arm, ARM_SLOTS);
    GroupCarried(hand, HAND_SLOTS);
    hide Positions, Velocities, Efforts, Slots, MeasuredPositions, MeasuredEfforts;
    var fb := FeedbackOf(x, arm, hand);
    assert fb.armDof as int == Slots(arm, ARM_SLOTS) && fb.handDof as int == Slots(hand, HAND_SLOTS);
  }

  lemma GroupCarried(joints: seq<JointState>, slots: nat)
    ensures Positions(joints, slots)[..Slots(joints, slots)] == MeasuredPositions(joints[..Slots(joints, slots)])
    ensures Efforts(joints, slots)[..Slots(joints, slots)] == MeasuredEfforts(joints[..Slots(joints, slots)])
  {
  }
}
