/** Fixed-width words as their packed little-endian bytes, and back. */
module LittleEndian {

  function Bytes16(x: bv16): (bytes: seq<bv8>)
    ensures |bytes| == 2
  {
    [(x & 0xFF) as bv8, (x >> 8) as bv8]
  }

  function Bytes32(x: bv32): (bytes: seq<bv8>)
    ensures |bytes| == 4
  {
    [(x & 0xFF) as bv8, ((x >> 8) & 0xFF) as bv8, ((x >> 16) & 0xFF) as bv8, (x >> 24) as bv8]
  }

  function Bytes64(x: bv64): (bytes: seq<bv8>)
    ensures |bytes| == 8
  {
    Bytes32((x & 0xFFFF_FFFF) as bv32) + Bytes32((x >> 32) as bv32)
  }

  function Word16(bytes: seq<bv8>): bv16
    requires |bytes| == 2
  {
    (bytes[0] as bv16) | ((bytes[1] as bv16) << 8)
  }

  function Word32(bytes: seq<bv8>): bv32
    requires |bytes| == 4
  {
    (bytes[0] as bv32) | ((bytes[1] as bv32) << 8) | ((bytes[2] as bv32) << 16) | ((bytes[3] as bv32) << 24)
  }

  function Word64(bytes: seq<bv8>): bv64
    requires |bytes| == 8
  {
    (Word32(bytes[..4]) as bv64) | ((Word32(bytes[4..]) as bv64) << 32)
  }

  lemma Word16OfBytes(x: bv16)
    ensures Word16(Bytes16(x)) == x
  {
  }

  lemma Word32OfBytes(x: bv32)
    ensures Word32(Bytes32(x)) == x
  {
  }

  lemma Word64OfBytes(x: bv64)
    ensures Word64(Bytes64(x)) == x
  {
    hide Bytes32, Word32;
    var lo, hi := (x & 0xFFFF_FFFF) as bv32, (x >> 32) as bv32;
    assert Bytes64(x)[..4] == Bytes32(lo) && Bytes64(x)[4..] == Bytes32(hi);
    Word32OfBytes(lo);
    Word32OfBytes(hi);
  }

  lemma Bytes16OfWord(s: seq<bv8>)
    requires |s| == 2
    ensures Bytes16(Word16(s)) == s
  {
  }

  lemma Bytes32OfWord(s: seq<bv8>)
    requires |s| == 4
    ensures Bytes32(Word32(s)) == s
  {
  }

  lemma Bytes64OfWord(s: seq<bv8>)
    requires |s| == 8
    ensures Bytes64(Word64(s)) == s
  {
    hide Bytes32, Word32;
    Bytes32OfWord(s[..4]);
    Bytes32OfWord(s[4..]);
    HalvesOfJoined(Word32(s[..4]), Word32(s[4..]));
    assert s == s[..4] + s[4..];
  }

  lemma HalvesOfJoined(lo: bv32, hi: bv32)
    ensures var x := (lo as bv64) | ((hi as bv64) << 32);
            (x & 0xFFFF_FFFF) as bv32 == lo && (x >> 32) as bv32 == hi
  {
  }
}
