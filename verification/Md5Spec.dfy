/** MD5 as the bundled library computes it: the compression of one block, the buffered hasher, and the padding.

    The digest of a byte sequence is described as section 3 of RFC 1321 does (`Pad`, `Compress`, `Digest`).  The hasher
    works on big-endian words that it swaps block by block; it is proved to compute that digest for any split of the
    message into updates. */
module Md5Spec {
  import opened BitVectors
  import opened JsNumber
  import opened WordArrays

  // The four words of the state.
  datatype Abcd = Abcd(a: uint32, b: uint32, c: uint32, d: uint32)

  const INITIAL: Abcd := Abcd(0x6745_2301, 0xefcd_ab89, 0x98ba_dcfe, 0x1032_5476)

  // The table of section 3.4 of RFC 1321, one row of words for each round.
  const SINES1: seq<bv32> := [
    0xd76a_a478, 0xe8c7_b756, 0x2420_70db, 0xc1bd_ceee,
    0xf57c_0faf, 0x4787_c62a, 0xa830_4613, 0xfd46_9501,
    0x6980_98d8, 0x8b44_f7af, 0xffff_5bb1, 0x895c_d7be,
    0x6b90_1122, 0xfd98_7193, 0xa679_438e, 0x49b4_0821
  ]

  const SINES2: seq<bv32> := [
    0xf61e_2562, 0xc040_b340, 0x265e_5a51, 0xe9b6_c7aa,
    0xd62f_105d, 0x0244_1453, 0xd8a1_e681, 0xe7d3_fbc8,
    0x21e1_cde6, 0xc337_07d6, 0xf4d5_0d87, 0x455a_14ed,
    0xa9e3_e905, 0xfcef_a3f8, 0x676f_02d9, 0x8d2a_4c8a
  ]

  const SINES3: seq<bv32> := [
    0xfffa_3942, 0x8771_f681, 0x6d9d_6122, 0xfde5_380c,
    0xa4be_ea44, 0x4bde_cfa9, 0xf6bb_4b60, 0xbebf_bc70,
    0x289b_7ec6, 0xeaa1_27fa, 0xd4ef_3085, 0x0488_1d05,
    0xd9d4_d039, 0xe6db_99e5, 0x1fa2_7cf8, 0xc4ac_5665
  ]

  const SINES4: seq<bv32> := [
    0xf429_2244, 0x432a_ff97, 0xab94_23a7, 0xfc93_a039,
    0x655b_59c3, 0x8f0c_cc92, 0xffef_f47d, 0x8584_5dd1,
    0x6fa8_7e4f, 0xfe2c_e6e0, 0xa301_4314, 0x4e08_11a1,
    0xf753_7e82, 0xbd3a_f235, 0x2ad7_d2bb, 0xeb86_d391
  ]

  const SINES: seq<bv32> := SINES1 + SINES2 + SINES3 + SINES4

  // Addition of words.
  function Plus(x: int, y: int): uint32
  {
    (x + y) % 0x1_0000_0000
  }

  function Complement(x: uint32): uint32
  {
    0xffff_ffff - x
  }

  // A shorter word type would do; the result of each bit operation is reduced to 32 bits, which changes nothing.
  function F(x: uint32, y: uint32, z: uint32): uint32
  {
    U32(BitOr(BitAnd(x, y), BitAnd(Complement(x), z)))
  }

  function G(x: uint32, y: uint32, z: uint32): uint32
  {
    U32(BitOr(BitAnd(x, z), BitAnd(y, Complement(z))))
  }

  function H(x: uint32, y: uint32, z: uint32): uint32
  {
    U32(BitXor(BitXor(x, y), z))
  }

  function I(x: uint32, y: uint32, z: uint32): uint32
  {
    U32(BitXor(y, BitOr(x, Complement(z))))
  }

  // Rotation to the left exchanges the top n bits with the rest.
  function Rotl(x: uint32, n: nat): uint32
    requires n <= 32
  {
    U32(Glue(Low(x, 32 - n), n, High(x, 32 - n)))
  }

  function Mixed(i: nat, s: Abcd): uint32
  {
    if i < 16 then F(s.b, s.c, s.d) else if i < 32 then G(s.b, s.c, s.d)
    else if i < 48 then H(s.b, s.c, s.d) else I(s.b, s.c, s.d)
  }

  function WordIndex(i: nat): (k: nat)
    ensures k < 16
  {
    if i < 16 then i else if i < 32 then (5 * i + 1) % 16 else if i < 48 then (3 * i + 5) % 16 else (7 * i) % 16
  }

  function Shift(i: nat): (n: nat)
    ensures n <= 32
  {
    var r := i % 4;
    if i < 16 then (if r == 0 then 7 else if r == 1 then 12 else if r == 2 then 17 else 22)
    else if i < 32 then (if r == 0 then 5 else if r == 1 then 9 else if r == 2 then 14 else 20)
    else if i < 48 then (if r == 0 then 4 else if r == 1 then 11 else if r == 2 then 16 else 23)
    else (if r == 0 then 6 else if r == 1 then 10 else if r == 2 then 15 else 21)
  }

  // Operation i of the 64 on one block.
  function Operation(i: nat, s: Abcd, x: seq<uint32>): Abcd
    requires i < 64 && |x| == 16
  {
    var sum := Plus(Plus(Plus(s.a, Mixed(i, s)), x[WordIndex(i)]), Nat32(SINES[i]));
    Abcd(s.d, Plus(s.b, Rotl(sum, Shift(i))), s.b, s.c)
  }

  function Operations(n: nat, s: Abcd, x: seq<uint32>): Abcd
    requires n <= 64 && |x| == 16
  {
    if n == 0 then s else Operation(n - 1, Operations(n - 1, s, x), x)
  }

  // The words of a block, low-order byte first.
  function BlockWords(block: seq<byte>): seq<uint32>
    requires |block| == 64
  {
    seq(16, i requires 0 <= i < 16 => Word(block[4 * i + 3], block[4 * i + 2], block[4 * i + 1], block[4 * i]))
  }

  function Compress(s: Abcd, block: seq<byte>): Abcd
    requires |block| == 64
  {
    var t := Operations(64, s, BlockWords(block));
    Abcd(Plus(s.a, t.a), Plus(s.b, t.b), Plus(s.c, t.c), Plus(s.d, t.d))
  }

  function CompressAll(s: Abcd, bytes: seq<byte>): Abcd
    decreases |bytes|
  {
    if |bytes| < 64 then s else CompressAll(Compress(s, bytes[..64]), bytes[64..])
  }

  // A number as n bytes, low-order byte first.
  function LittleBytes(x: nat, n: nat): (b: seq<byte>)
    ensures |b| == n
  {
    if n == 0 then [] else [x % 256] + LittleBytes(x / 256, n - 1)
  }

  function Zeros(n: nat): (z: seq<byte>)
    ensures |z| == n && forall i :: 0 <= i < n ==> z[i] == 0
  {
    seq(n, _ => 0)
  }

  // One bit, zeros up to 56 modulo 64, and the length in bits modulo 2^64.
  function Padding(length: nat): seq<byte>
  {
    [0x80] + Zeros((55 - length) % 64) + LittleBytes(8 * length, 8)
  }

  function Pad(message: seq<byte>): seq<byte>
  {
    message + Padding(|message|)
  }

  // A padded message is a whole number of blocks, one or two more than the message fills.
  lemma PadFillsBlocks(message: seq<byte>)
    ensures |Pad(message)| % 64 == 0 && |message| + 9 <= |Pad(message)| <= |message| + 72
  {
    hide Zeros, LittleBytes;
    var n := |message|;
    assert (n + 9 + (55 - n) % 64) % 64 == 0;
  }

  function WordBytes(x: uint32): seq<byte>
  {
    LittleBytes(x, 4)
  }

  function StateBytes(s: Abcd): seq<byte>
  {
    WordBytes(s.a) + WordBytes(s.b) + WordBytes(s.c) + WordBytes(s.d)
  }

  function Digest(message: seq<byte>): seq<byte>
  {
    StateBytes(CompressAll(INITIAL, Pad(message)))
  }

  lemma {:induction false} CompressAllSplit(s: Abcd, x: seq<byte>, y: seq<byte>)
    requires |x| % 64 == 0
    ensures CompressAll(s, x + y) == CompressAll(CompressAll(s, x), y)
    decreases |x|
  {
    hide Compress;
    if |x| == 0 {
      assert x + y == y;
    } else {
      assert (x + y)[..64] == x[..64] && (x + y)[64..] == x[64..] + y;
      CompressAllSplit(Compress(s, x[..64]), x[64..], y);
    }
  }

  lemma OneBlock(s: Abcd, block: seq<byte>)
    requires |block| == 64
    ensures CompressAll(s, block) == Compress(s, block)
  {
    hide Compress;
    assert block[..64] == block && block[64..] == [];
  }

  // One more block behind a text of complete blocks.
  lemma NextBlock(s: Abcd, text: seq<byte>, block: seq<byte>)
    requires |text| % 64 == 0 && |block| == 64
    ensures CompressAll(s, text + block) == Compress(CompressAll(s, text), block)
  {
    hide Compress, CompressAll;
    CompressAllSplit(s, text, block);
    OneBlock(CompressAll(s, text), block);
  }
}
