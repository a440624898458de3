/** A buffer followed by its own checksum: the form in which every packet travels. */
module Crc32Residue {
  import opened Crc32
  import opened LittleEndian

  /** The lowest byte of a word that meets the register, and the bytes still to come. */
  lemma WordEnters(r: bv32, w: bv32, b: bv8, n: nat)
    requires Widen(b) == LowByte(w)
    ensures Steps(Xor(r, w), BYTE_BITS + n) == Steps(Xor(ByteStep(r, b), ShiftByte(w)), n)
  {
    hide Step, Xor, Widen, LowByte, HighBytes, ShiftByte;
    SplitBytes(w);
    XorAssociates(r, Widen(b), HighBytes(w));
    StepsOfShiftedWord(Xor(r, Widen(b)), HighBytes(w), BYTE_BITS);
    StepsAdd(Xor(r, w), BYTE_BITS, n);
  }

  lemma SplitBytes(w: bv32)
    ensures w == Xor(LowByte(w), HighBytes(w))
    ensures LowBitsClear(HighBytes(w), BYTE_BITS) && ShiftedOut(HighBytes(w), BYTE_BITS) == ShiftByte(w)
  {
    hide Xor, LowByte, HighBytes, ShiftByte;
    HighBytesAreAligned(w);
    EightShifts(HighBytes(w));
  }

  lemma HighBytesAreAligned(w: bv32)
    ensures w == Xor(LowByte(w), HighBytes(w))
    ensures HighBytes(w) & 0xFF == 0 && HighBytes(w) >> 8 == ShiftByte(w)
  {
  }

  lemma BytesOfWord(w: bv32)
    ensures var bytes, w1 := Bytes32(w), ShiftByte(w);
            var w2 := ShiftByte(w1);
            var w3 := ShiftByte(w2);
            && Widen(bytes[0]) == LowByte(w) && Widen(bytes[1]) == LowByte(w1)
            && Widen(bytes[2]) == LowByte(w2) && Widen(bytes[3]) == LowByte(w3)
            && ShiftByte(w3) == 0
  {
  }

  /** Four bytes enter the register as one 32-bit word. */
  lemma RunOfWord(r: bv32, w: bv32)
    ensures Run(r, Bytes32(w)) == Steps(Xor(r, w), 4 * BYTE_BITS)
  {
    hide Step, Steps, ByteStep, Xor, Widen, LowByte, ShiftByte, Bytes32;
    var bytes := Bytes32(w);
    var w1 := ShiftByte(w);
    var w2 := ShiftByte(w1);
    var w3 := ShiftByte(w2);
    BytesOfWord(w);
    var r1 := ByteStep(r, bytes[0]);
    var r2 := ByteStep(r1, bytes[1]);
    var r3 := ByteStep(r2, bytes[2]);
    var r4 := ByteStep(r3, bytes[3]);
    RunOfFour(r, bytes);
    WordEnters(r, w, bytes[0], 24);
    WordEnters(r1, w1, bytes[1], 16);
    WordEnters(r2, w2, bytes[2], 8);
    WordEnters(r3, w3, bytes[3], 0);
    NoSteps(r4);
  }

  lemma NoSteps(r: bv32)
    ensures Steps(Xor(r, 0), 0) == r
  {
  }

  lemma RunOfFour(r: bv32, bytes: seq<bv8>)
    requires |bytes| == 4
    ensures Run(r, bytes) == ByteStep(ByteStep(ByteStep(ByteStep(r, bytes[0]), bytes[1]), bytes[2]), bytes[3])
  {
    hide ByteStep;
    assert Run(r, bytes[..0]) == r;
    assert bytes[..1][..0] == bytes[..0] && bytes[..2][..1] == bytes[..1] && bytes[..3][..2] == bytes[..2];
    assert Run(r, bytes[..1]) == ByteStep(r, bytes[0]);
    assert Run(r, bytes[..2]) == ByteStep(Run(r, bytes[..1]), bytes[1]);
    assert Run(r, bytes[..3]) == ByteStep(Run(r, bytes[..2]), bytes[2]);
  }

  /** The register left by a word that is the complement of the register. */
  lemma OnesThroughTheRegister()
    ensures Steps(0xFFFF_FFFF, 4 * BYTE_BITS) == Flip(RESIDUE)
  {
    assert Steps(0xFFFF_FFFF, 8) == 0x2DFD_1072;
    assert Steps(0x2DFD_1072, 8) == 0xBE26_ED00;
    assert Steps(0xBE26_ED00, 8) == 0x00BE_26ED;
    assert Steps(0x00BE_26ED, 8) == 0xDEBB_20E3;
    StepsAdd(0xFFFF_FFFF, 8, 24);
    StepsAdd(0x2DFD_1072, 8, 16);
    StepsAdd(0xBE26_ED00, 8, 8);
  }

  /** Appending the checksum makes the checksum the fixed residue, and nothing else of four bytes does. */
  lemma ResidueIffOwnChecksum(data: seq<bv8>, tail: seq<bv8>)
    requires |tail| == 4
    ensures Crc(data + tail) == RESIDUE <==> tail == Bytes32(Crc(data))
  {
    hide Step, Steps, ByteStep, Xor, Bytes32, Word32, Flip, Run;
    var r, w := Run(PRESET, data), Word32(tail);
    Bytes32OfWord(tail);
    Word32OfBytes(Crc(data));
    RunConcat(PRESET, data, tail);
    RunOfWord(r, w);
    OnesThroughTheRegister();
    XorWithComplement(r);
    FlipTwice(RESIDUE);
    if Crc(data + tail) == RESIDUE {
      ComplementOfResidue(Run(PRESET, data + tail));
      StepsInjective(Xor(r, w), Xor(r, Flip(r)), 4 * BYTE_BITS);
      XorCommutes(r, w);
      XorCommutes(r, Flip(r));
      XorInjective(w, Flip(r), r);
    }
  }

  lemma FlipTwice(x: bv32)
    ensures Flip(Flip(x)) == x
  {
  }

  lemma XorWithComplement(r: bv32)
    ensures Xor(r, Flip(r)) == 0xFFFF_FFFF
  {
  }

  lemma ComplementOfResidue(r: bv32)
    requires Flip(r) == RESIDUE
    ensures r == Flip(RESIDUE)
  {
  }
}
