/** The checksum of the digits "123456789", by which CRC-32 is known. */
module Crc32Check {
  import opened Crc32

  const CHECK: seq<bv8> := [0x31, 0x32, 0x33, 0x34, 0x35, 0x36, 0x37, 0x38, 0x39]

  function Shift(r: bv32): bv32 {
    if r & 1 == 1 then (r >> 1) ^ 0xEDB8_8320 else r >> 1
  }

  lemma StepIsShift(r: bv32)
    ensures Step(r) == Shift(r)
  {
  }

  lemma EightSteps(r: bv32)
    ensures Steps(r, 8) == Shift(Shift(Shift(Shift(Shift(Shift(Shift(Shift(r))))))))
  {
    hide Step, Shift;
    var r1 := Shift(r);
    var r2 := Shift(r1);
    var r3 := Shift(r2);
    var r4 := Shift(r3);
    var r5 := Shift(r4);
    var r6 := Shift(r5);
    var r7 := Shift(r6);
    StepIsShift(r);
    StepIsShift(r1);
    StepIsShift(r2);
    StepIsShift(r3);
    StepIsShift(r4);
    StepIsShift(r5);
    StepIsShift(r6);
    StepIsShift(r7);
    assert Steps(r, 1) == r1 by { assert Steps(r, 0) == r; }
    assert Steps(r, 2) == r2;
    assert Steps(r, 3) == r3;
    assert Steps(r, 4) == r4;
    assert Steps(r, 5) == r5;
    assert Steps(r, 6) == r6;
    assert Steps(r, 7) == r7;
  }

  /** One byte fed to the register. */
  lemma Fed(r: bv32, b: bv8, next: bv32)
    requires next == Shift(Shift(Shift(Shift(Shift(Shift(Shift(Shift(r ^ (b as bv32)))))))))
    ensures ByteStep(r, b) == next
  {
    hide Step, Steps, Shift;
    EightSteps(r ^ (b as bv32));
  }

  lemma Digits1To3()
    ensures ByteStep(0xFFFFFFFF, 0x31) == 0x7C231048
    ensures ByteStep(0x7C231048, 0x32) == 0xB0ACBB32
    ensures ByteStep(0xB0ACBB32, 0x33) == 0x77B79C2D
  {
    hide Step, Steps, ByteStep;
    Fed(0xFFFFFFFF, 0x31, 0x7C231048);
    Fed(0x7C231048, 0x32, 0xB0ACBB32);
    Fed(0xB0ACBB32, 0x33, 0x77B79C2D);
  }

  lemma Digits4To6()
    ensures ByteStep(0x77B79C2D, 0x34) == 0x641C1F5C
    ensures ByteStep(0x641C1F5C, 0x35) == 0x340AC5E3
    ensures ByteStep(0x340AC5E3, 0x36) == 0xF68D2C9E
  {
    hide Step, Steps, ByteStep;
    Fed(0x77B79C2D, 0x34, 0x641C1F5C);
    Fed(0x641C1F5C, 0x35, 0x340AC5E3);
    Fed(0x340AC5E3, 0x36, 0xF68D2C9E);
  }

  lemma Digits7To9()
    ensures ByteStep(0xF68D2C9E, 0x37) == 0xAFFC9660
    ensures ByteStep(0xAFFC9660, 0x38) == 0x651F2550
    ensures ByteStep(0x651F2550, 0x39) == 0x340BC6D9
  {
    hide Step, Steps, ByteStep;
    Fed(0xF68D2C9E, 0x37, 0xAFFC9660);
    Fed(0xAFFC9660, 0x38, 0x651F2550);
    Fed(0x651F2550, 0x39, 0x340BC6D9);
  }

  lemma OneMore(n: nat, before: bv32)
    requires n < 9 && Run(PRESET, CHECK[..n]) == before
    ensures Run(PRESET, CHECK[..n + 1]) == ByteStep(before, CHECK[n])
  {
    hide ByteStep;
    assert CHECK[..n + 1][..n] == CHECK[..n];
  }

  /** The published check value of CRC-32. */
  lemma CheckValue()
    ensures Crc(CHECK) == 0xCBF4_3926
  {
    hide Step, Steps, ByteStep, Run, Shift;
    assert Run(PRESET, CHECK[..0]) == 0xFFFF_FFFF by { EmptyRun(); }
    Digits1To3();
    Digits4To6();
    Digits7To9();
    OneMore(0, 0xFFFFFFFF);
    OneMore(1, 0x7C231048);
    OneMore(2, 0xB0ACBB32);
    OneMore(3, 0x77B79C2D);
    OneMore(4, 0x641C1F5C);
    OneMore(5, 0x340AC5E3);
    OneMore(6, 0xF68D2C9E);
    OneMore(7, 0xAFFC9660);
    OneMore(8, 0x651F2550);
    assert CHECK[..9] == CHECK;
  }

  lemma EmptyRun()
    ensures Run(PRESET, CHECK[..0]) == 0xFFFF_FFFF
  {
  }
}
