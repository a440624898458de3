/**
 What a checksum tells about a damaged buffer.

 A buffer is read as its bits, least significant bit of each byte first: the order in which they
 enter the register.  Thirty-two of them fill the register exactly, so two different words of at most
 32 bits in the same place always leave different registers behind, and nothing that follows can
 bring the registers together again.
 */
module Crc32Errors {
  import opened Crc32

  // ---------------------------------------------------------------- buffers as bits

  function ByteBits(b: bv8): (bits: seq<bool>)
    ensures |bits| == 8
  {
    [b & 0x01 != 0, b & 0x02 != 0, b & 0x04 != 0, b & 0x08 != 0,
     b & 0x10 != 0, b & 0x20 != 0, b & 0x40 != 0, b & 0x80 != 0]
  }

  function Bits(data: seq<bv8>): (bits: seq<bool>)
    ensures |bits| == 8 * |data|
  {
    if data == [] then [] else Bits(data[..|data| - 1]) + ByteBits(data[|data| - 1])
  }

  /** The buffers are equally long and differ at most in the `width` bits from bit `start` on. */
  ghost predicate DifferOnlyWithin(a: seq<bv8>, b: seq<bv8>, start: nat, width: nat) {
    && |a| == |b|
    && forall i :: 0 <= i < 8 * |a| && Bits(a)[i] != Bits(b)[i] ==> start <= i < start + width
  }

  lemma ByteBitsInjective(a: bv8, b: bv8)
    requires ByteBits(a) == ByteBits(b)
    ensures a == b
  {
    var x, y := ByteBits(a), ByteBits(b);
    assert x[0] == y[0] && x[1] == y[1] && x[2] == y[2] && x[3] == y[3];
    assert x[4] == y[4] && x[5] == y[5] && x[6] == y[6] && x[7] == y[7];
  }

  lemma {:induction false} BitsInjective(a: seq<bv8>, b: seq<bv8>)
    requires |a| == |b| && Bits(a) == Bits(b)
    ensures a == b
  {
    hide ByteBits;
    if a != [] {
      var n := |a| - 1;
      assert Bits(a)[..8 * n] == Bits(a[..n]) && Bits(a)[8 * n..] == ByteBits(a[n]);
      assert Bits(b)[..8 * n] == Bits(b[..n]) && Bits(b)[8 * n..] == ByteBits(b[n]);
      BitsInjective(a[..n], b[..n]);
      ByteBitsInjective(a[n], b[n]);
      assert a == a[..n] + [a[n]] && b == b[..n] + [b[n]];
    }
  }

  // ---------------------------------------------------------------- the register, a bit at a time

  function BitWord(b: bool): bv32 {
    if b then 1 else 0
  }

  function BitStep(r: bv32, b: bool): bv32 {
    Step(Xor(r, BitWord(b)))
  }

  function RunBits(r: bv32, bits: seq<bool>): bv32
    decreases |bits|
  {
    if bits == [] then r else RunBits(BitStep(r, bits[0]), bits[1..])
  }

  predicate TopBit(w: bv32) {
    w & 0x8000_0000 != 0
  }

  lemma BitStepInjective(x: bv32, y: bv32, b: bool)
    requires BitStep(x, b) == BitStep(y, b)
    ensures x == y
  {
    hide Step, Xor;
    StepInjective(Xor(x, BitWord(b)), Xor(y, BitWord(b)));
    XorInjective(x, y, BitWord(b));
  }

  lemma {:induction false} RunBitsInjective(x: bv32, y: bv32, bits: seq<bool>)
    requires RunBits(x, bits) == RunBits(y, bits)
    ensures x == y
    decreases |bits|
  {
    hide BitStep;
    if bits != [] {
      RunBitsInjective(BitStep(x, bits[0]), BitStep(y, bits[0]), bits[1..]);
      BitStepInjective(x, y, bits[0]);
    }
  }

  lemma {:induction false} RunBitsConcat(r: bv32, a: seq<bool>, b: seq<bool>)
    ensures RunBits(r, a + b) == RunBits(RunBits(r, a), b)
    decreases |a|
  {
    hide BitStep;
    if a == [] {
      assert a + b == b;
    } else {
      RunBitsConcat(BitStep(r, a[0]), a[1..], b);
      assert (a + b)[1..] == a[1..] + b;
    }
  }

  // ---------------------------------------------------------------- bytes enter the register as their bits

  /** Eight bits entering one by one leave the register that the whole byte leaves. */
  lemma ByteStepIsEightBitSteps(r: bv32, b: bv8)
    ensures RunBits(r, ByteBits(b)) == ByteStep(r, b)
  {
    hide Step, Xor, Widen, BitWord, ByteBits;
    ByteBitsAreWidened(b);
    BitsEnter(r, Widen(b), ByteBits(b));
  }

  /** The word whose bits are `bits`, the first one lowest. */
  predicate IsWordOf(w: bv32, bits: seq<bool>)
    decreases |bits|
  {
    if bits == [] then w == 0 else (Odd(w) <==> bits[0]) && IsWordOf(Half(w), bits[1..])
  }

  lemma {:induction false} BitsEnter(r: bv32, w: bv32, bits: seq<bool>)
    requires IsWordOf(w, bits)
    ensures RunBits(r, bits) == Steps(Xor(r, w), |bits|)
    decreases |bits|
  {
    hide Step, Xor, Half, BitWord, Odd;
    if bits == [] {
      XorZero(r);
    } else {
      FirstBitEnters(r, w, bits[0]);
      BitsEnter(BitStep(r, bits[0]), Half(w), bits[1..]);
      FirstStep(Xor(r, w), |bits|);
    }
  }

  lemma XorZero(r: bv32)
    ensures Xor(r, 0) == r
  {
  }

  lemma FirstBitEnters(r: bv32, w: bv32, b: bool)
    requires Odd(w) <==> b
    ensures Step(Xor(r, w)) == Xor(BitStep(r, b), Half(w))
  {
    hide Step, Xor, Half;
    var even := w & 0xFFFF_FFFE;
    LowestBit(w, b);
    XorAssociates(r, BitWord(b), even);
    StepOfEvenWord(Xor(r, BitWord(b)), even);
  }

  lemma LowestBit(w: bv32, b: bool)
    requires Odd(w) <==> b
    ensures var even := w & 0xFFFF_FFFE; w == Xor(BitWord(b), even) && !Odd(even) && Half(even) == Half(w)
  {
  }

  lemma ByteBitsAreWidened(b: bv8)
    ensures IsWordOf(Widen(b), ByteBits(b))
  {
    hide Widen, Half, Odd, ByteBits, IsWordOf;
    var bits := ByteBits(b);
    HalvesOfByte(b);
    NoBits();
    assert bits[8..] == [];
    var w1 := Half(Widen(b));
    var w2 := Half(w1);
    var w3 := Half(w2);
    var w4 := Half(w3);
    var w5 := Half(w4);
    var w6 := Half(w5);
    var w7 := Half(w6);
    PrependBit(w7, bits, 7);
    PrependBit(w6, bits, 6);
    PrependBit(w5, bits, 5);
    PrependBit(w4, bits, 4);
    PrependBit(w3, bits, 3);
    PrependBit(w2, bits, 2);
    PrependBit(w1, bits, 1);
    PrependBit(Widen(b), bits, 0);
    assert bits[0..] == bits;
  }

  lemma NoBits()
    ensures IsWordOf(0, [])
  {
  }

  lemma PrependBit(w: bv32, bits: seq<bool>, k: nat)
    requires k < |bits| && (Odd(w) <==> bits[k]) && IsWordOf(Half(w), bits[k + 1..])
    ensures IsWordOf(w, bits[k..])
  {
    hide Odd, Half;
    assert bits[k..][1..] == bits[k + 1..];
  }

  lemma HalvesOfByte(b: bv8)
    ensures var bits, w1 := ByteBits(b), Half(Widen(b));
            var w2 := Half(w1);
            var w3 := Half(w2);
            var w4 := Half(w3);
            var w5 := Half(w4);
            var w6 := Half(w5);
            var w7 := Half(w6);
            && Half(w7) == 0
            && (Odd(Widen(b)) <==> bits[0]) && (Odd(w1) <==> bits[1]) && (Odd(w2) <==> bits[2]) && (Odd(w3) <==> bits[3])
            && (Odd(w4) <==> bits[4]) && (Odd(w5) <==> bits[5]) && (Odd(w6) <==> bits[6]) && (Odd(w7) <==> bits[7])
  {
  }

  lemma {:induction false} RunIsRunBits(r: bv32, data: seq<bv8>)
    ensures Run(r, data) == RunBits(r, Bits(data))
  {
    hide ByteStep, ByteBits, BitStep;
    if data != [] {
      var n := |data| - 1;
      RunIsRunBits(r, data[..n]);
      RunBitsConcat(r, Bits(data[..n]), ByteBits(data[n]));
      ByteStepIsEightBitSteps(Run(r, data[..n]), data[n]);
    }
  }

  // ---------------------------------------------------------------- up to 32 bits can be read back

  lemma TopBitIsLowBit(r: bv32, b: bool)
    ensures TopBit(BitStep(r, b)) <==> (Odd(r) != b)
  {
  }

  lemma HalfOfBitStep(r: bv32, b: bool)
    ensures BitStep(r, b) == if Odd(r) != b then Xor(Half(r), POLYNOMIAL) else Half(r)
  {
    hide Xor, Half, Odd;
    EnteringBit(r, b);
  }

  lemma EnteringBit(r: bv32, b: bool)
    ensures Half(Xor(r, BitWord(b))) == Half(r)
    ensures Odd(Xor(r, BitWord(b))) <==> (Odd(r) != b)
  {
  }

  lemma {:induction false} ShiftedOutXor(x: bv32, y: bv32, n: nat)
    ensures ShiftedOut(Xor(x, y), n) == Xor(ShiftedOut(x, n), ShiftedOut(y, n))
    decreases n
  {
    hide Xor, Half;
    if n > 0 {
      HalfOfXor(x, y);
      ShiftedOutXor(Half(x), Half(y), n - 1);
    }
  }

  lemma HalfOfXor(x: bv32, y: bv32)
    ensures Half(Xor(x, y)) == Xor(Half(x), Half(y))
  {
  }

  lemma {:induction false} ShiftedOutAdd(x: bv32, m: nat, n: nat)
    ensures ShiftedOut(x, m + n) == ShiftedOut(ShiftedOut(x, m), n)
    decreases m
  {
    hide Half;
    if m > 0 {
      ShiftedOutAdd(Half(x), m - 1, n);
    }
  }

  function Sixteenth(w: bv32): bv32 {
    w >> 4
  }

  lemma TopBitRemains(w: bv32)
    ensures TopBit(w) <==> ShiftedOut(w, 31) != 0
  {
    hide TopBit, Sixteenth, Half;
    var w1 := Sixteenth(w);
    var w2 := Sixteenth(w1);
    var w3 := Sixteenth(w2);
    var w4 := Sixteenth(w3);
    var w5 := Sixteenth(w4);
    var w6 := Sixteenth(w5);
    FourHalvings(w, 27);
    FourHalvings(w1, 23);
    FourHalvings(w2, 19);
    FourHalvings(w3, 15);
    FourHalvings(w4, 11);
    FourHalvings(w5, 7);
    FourHalvings(w6, 3);
    ThreeHalvings(Sixteenth(w6));
    TopBitIsLast(w);
  }

  lemma TopBitIsLast(w: bv32)
    ensures var v := Sixteenth(Sixteenth(Sixteenth(Sixteenth(Sixteenth(Sixteenth(Sixteenth(w)))))));
            TopBit(w) <==> Half(Half(Half(v))) != 0
  {
  }

  lemma ThreeHalvings(v: bv32)
    ensures ShiftedOut(v, 3) == Half(Half(Half(v)))
  {
    hide Half;
    assert ShiftedOut(Half(Half(v)), 1) == Half(Half(Half(v)));
    assert ShiftedOut(Half(v), 2) == ShiftedOut(Half(Half(v)), 1);
  }

  lemma FourHalvings(w: bv32, n: nat)
    ensures ShiftedOut(w, n + 4) == ShiftedOut(Sixteenth(w), n)
  {
    hide Half, Sixteenth;
    HalfFourTimes(w);
    assert ShiftedOut(Half(w), n + 3) == ShiftedOut(Half(Half(w)), n + 2);
    assert ShiftedOut(Half(Half(Half(w))), n + 1) == ShiftedOut(Sixteenth(w), n);
  }

  lemma HalfFourTimes(w: bv32)
    ensures Half(Half(Half(Half(w)))) == Sixteenth(w)
  {
  }

  /** Registers that agree above bit `n` agree in the top bit. */
  lemma SameTopBit(x: bv32, y: bv32, n: nat)
    requires n <= 31 && ShiftedOut(x, n) == ShiftedOut(y, n)
    ensures TopBit(x) <==> TopBit(y)
  {
    hide TopBit, Half;
    ShiftedOutAdd(x, n, 31 - n);
    ShiftedOutAdd(y, n, 31 - n);
    TopBitRemains(x);
    TopBitRemains(y);
  }

  /** Equal registers after `n` bits were equal above bit `n` before them. */
  lemma {:induction false} RegistersAgreed(x: bv32, y: bv32, u: seq<bool>, v: seq<bool>)
    requires |u| == |v| <= 31 && RunBits(x, u) == RunBits(y, v)
    ensures ShiftedOut(x, |u|) == ShiftedOut(y, |u|)
    decreases |u|
  {
    hide BitStep, TopBit, Xor, Half, Odd;
    if u != [] {
      var n := |u| - 1;
      var x1, y1 := BitStep(x, u[0]), BitStep(y, v[0]);
      RegistersAgreed(x1, y1, u[1..], v[1..]);
      SameTopBit(x1, y1, n);
      TopBitIsLowBit(x, u[0]);
      TopBitIsLowBit(y, v[0]);
      HalfOfBitStep(x, u[0]);
      HalfOfBitStep(y, v[0]);
      ShiftedOutXor(Half(x), POLYNOMIAL, n);
      ShiftedOutXor(Half(y), POLYNOMIAL, n);
      if Odd(x) != u[0] {
        XorInjective(ShiftedOut(Half(x), n), ShiftedOut(Half(y), n), ShiftedOut(POLYNOMIAL, n));
      }
    }
  }

  /** From one register, at most 32 bits leave different registers unless they are the same bits. */
  lemma {:induction false} ShortRunsInjective(r: bv32, u: seq<bool>, v: seq<bool>)
    requires |u| == |v| <= 32 && RunBits(r, u) == RunBits(r, v)
    ensures u == v
    decreases |u|
  {
    hide BitStep, TopBit, Odd;
    if u != [] {
      var x1, y1 := BitStep(r, u[0]), BitStep(r, v[0]);
      RegistersAgreed(x1, y1, u[1..], v[1..]);
      SameTopBit(x1, y1, |u| - 1);
      TopBitIsLowBit(r, u[0]);
      TopBitIsLowBit(r, v[0]);
      ShortRunsInjective(x1, u[1..], v[1..]);
      assert u == [u[0]] + u[1..] && v == [v[0]] + v[1..];
    }
  }

  // ---------------------------------------------------------------- error detection

  /** Changing a buffer only within 32 consecutive bits changes its checksum. */
  lemma BurstChangesCrc(a: seq<bv8>, b: seq<bv8>, start: nat)
    requires a != b && DifferOnlyWithin(a, b, start, 32)
    ensures Crc(a) != Crc(b)
  {
    hide Bits, BitStep, ByteStep, RunBits, Run;
    var x, y, n := Bits(a), Bits(b), 8 * |a|;
    var i := if start < n then start else n;
    var j := if start + 32 < n then start + 32 else n;
    assert x[..i] == y[..i] && x[j..] == y[j..];
    RunIsRunBits(PRESET, a);
    RunIsRunBits(PRESET, b);
    RunThrough(x, i, j);
    RunThrough(y, i, j);
    if Run(PRESET, a) == Run(PRESET, b) {
      var r := RunBits(PRESET, x[..i]);
      RunBitsInjective(RunBits(r, x[i..j]), RunBits(r, y[i..j]), x[j..]);
      ShortRunsInjective(r, x[i..j], y[i..j]);
      assert x == x[..i] + x[i..j] + x[j..] && y == y[..i] + y[i..j] + y[j..];
      BitsInjective(a, b);
    }
    ComplementInjective(Run(PRESET, a), Run(PRESET, b));
  }

  lemma ComplementInjective(x: bv32, y: bv32)
    ensures Flip(x) == Flip(y) ==> x == y
  {
  }

  lemma RunThrough(x: seq<bool>, i: nat, j: nat)
    requires i <= j <= |x|
    ensures RunBits(PRESET, x) == RunBits(RunBits(RunBits(PRESET, x[..i]), x[i..j]), x[j..])
  {
    hide BitStep;
    assert x == x[..i] + x[i..] && x[i..] == x[i..j] + x[j..];
    RunBitsConcat(PRESET, x[..i], x[i..]);
    RunBitsConcat(RunBits(PRESET, x[..i]), x[i..j], x[j..]);
  }
}
