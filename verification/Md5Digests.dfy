/** Known digests of MD5: two messages of the test suite in section A.5 of RFC 1321, worked out from the definition.

    The 64 operations are first described on bit vectors, on which the verifier computes. */
module Md5Digests {
  import opened JsNumber
  import opened Md5Spec
  import opened BitVectors
  import opened WordArrays

  // ---------------------------------------------------------------- the operations on bit vectors

  function SelectF(x: bv32, y: bv32, z: bv32): bv32
  {
    (x & y) | (!x & z)
  }

  function SelectG(x: bv32, y: bv32, z: bv32): bv32
  {
    (x & z) | (y & !z)
  }

  function SelectH(x: bv32, y: bv32, z: bv32): bv32
  {
    Xor32(Xor32(x, y), z)
  }

  function SelectI(x: bv32, y: bv32, z: bv32): bv32
  {
    y ^ (x | !z)
  }

  // The same by the named operators.
  lemma SelectFIs(x: bv32, y: bv32, z: bv32)
    ensures SelectF(x, y, z) == Or32(And32(x, y), And32(Not32(x), z))
  {
  }

  lemma SelectGIs(x: bv32, y: bv32, z: bv32)
    ensures SelectG(x, y, z) == Or32(And32(x, z), And32(y, Not32(z)))
  {
  }

  lemma SelectIIs(x: bv32, y: bv32, z: bv32)
    ensures SelectI(x, y, z) == Xor32(y, Or32(x, Not32(z)))
  {
  }

  function Select(i: nat, x: bv32, y: bv32, z: bv32): bv32
  {
    if i < 16 then SelectF(x, y, z) else if i < 32 then SelectG(x, y, z)
    else if i < 48 then SelectH(x, y, z) else SelectI(x, y, z)
  }

  function Words(a: bv32, b: bv32, c: bv32, d: bv32): Abcd
  {
    Abcd(Nat32(a), Nat32(b), Nat32(c), Nat32(d))
  }

  lemma FMeans(x: bv32, y: bv32, z: bv32)
    ensures F(Nat32(x), Nat32(y), Nat32(z)) == Nat32(SelectF(x, y, z))
  {
    SelectFIs(x, y, z);
    hide BitAnd, BitOr, Nat32, Not32, SelectF, And32, Or32, Xor32;
    NotMeans(x);
    WordsMean(Conjunction, x, y);
    WordsMean(Conjunction, Not32(x), z);
    WordsMean(Disjunction, OnWords(Conjunction, x, y), OnWords(Conjunction, Not32(x), z));
  }

  lemma GMeans(x: bv32, y: bv32, z: bv32)
    ensures G(Nat32(x), Nat32(y), Nat32(z)) == Nat32(SelectG(x, y, z))
  {
    SelectGIs(x, y, z);
    hide BitAnd, BitOr, Nat32, Not32, SelectG, And32, Or32, Xor32;
    NotMeans(z);
    WordsMean(Conjunction, x, z);
    WordsMean(Conjunction, y, Not32(z));
    WordsMean(Disjunction, OnWords(Conjunction, x, z), OnWords(Conjunction, y, Not32(z)));
  }

  lemma HMeans(x: bv32, y: bv32, z: bv32)
    ensures H(Nat32(x), Nat32(y), Nat32(z)) == Nat32(SelectH(x, y, z))
  {
    hide BitXor, Nat32, Xor32;
    WordsMean(Difference, x, y);
    WordsMean(Difference, OnWords(Difference, x, y), z);
  }

  lemma IMeans(x: bv32, y: bv32, z: bv32)
    ensures I(Nat32(x), Nat32(y), Nat32(z)) == Nat32(SelectI(x, y, z))
  {
    SelectIIs(x, y, z);
    hide BitXor, BitOr, Nat32, Not32, SelectI, And32, Or32, Xor32;
    NotMeans(z);
    WordsMean(Disjunction, x, Not32(z));
    WordsMean(Difference, y, OnWords(Disjunction, x, Not32(z)));
  }

  lemma SelectMeans(i: nat, a: bv32, x: bv32, y: bv32, z: bv32)
    ensures Mixed(i, Words(a, x, y, z)) == Nat32(Select(i, x, y, z))
  {
    hide Nat32, F, G, H, I, SelectF, SelectG, SelectH, SelectI;
    FMeans(x, y, z);
    GMeans(x, y, z);
    HMeans(x, y, z);
    IMeans(x, y, z);
  }

  // The first bit, the n - 1 behind it, and the rest of a word.
  lemma Parts(x: uint32, n: nat, t: nat, r: nat, l: nat)
    requires 0 < n <= 32 && t < 2 && r < Pow2(n - 1) && l < Pow2(32 - n)
    requires x == Glue(Glue(t, n - 1, r), 32 - n, l)
    ensures Rotl(x, n) == Glue(l, n, Glue(t, n - 1, r))
    ensures Rotl(x, 1) == Glue(Glue(r, 32 - n, l), 1, t)
  {
    hide Low, High, Glue, Rotl;
    GlueParts(Glue(t, n - 1, r), 32 - n, l);
    RotlIs(x, n);
    GlueGlue(t, n - 1, r, 32 - n, l);
    GlueBound(r, n - 1, l, 32 - n);
    GlueParts(t, 31, Glue(r, 32 - n, l));
    RotlIs(x, 1);
  }

  // A rotation begins with a rotation by one.
  lemma RotlFirst(x: uint32, n: nat)
    requires 0 < n <= 32
    ensures Rotl(x, n) == Rotl(Rotl(x, 1), n - 1)
  {
    hide Low, High, Glue, Rotl;
    var h, l := High(x, 32 - n), Low(x, 32 - n);
    var t, r := High(h, n - 1), Low(h, n - 1);
    PartsGlue(x, 32 - n);
    PartsGlue(h, n - 1);
    WordBound(x, n);
    HighBound(h, n - 1, 1);
    assert Pow2(1) == 2;
    Parts(x, n, t, r, l);
    GlueGlue(r, 32 - n, l, 1, t);
    GlueBound(l, 32 - n, t, 1);
    GlueParts(r, 33 - n, Glue(l, 1, t));
    RotlIs(Rotl(x, 1), n - 1);
    GlueGlue(l, 1, t, n - 1, r);
  }

  lemma WordBound(x: uint32, n: nat)
    requires n <= 32
    ensures High(x, 32 - n) < Pow2(n)
  {
    assert Pow2(32) == 0x1_0000_0000 by { Pow2Values(); }
    HighBound(x, 32 - n, n);
  }

  lemma RotlIs(x: uint32, n: nat)
    requires n <= 32
    ensures Rotl(x, n) == Glue(Low(x, 32 - n), n, High(x, 32 - n))
  {
    hide Low, High, Glue;
    assert Pow2(32) == 0x1_0000_0000 by { Pow2Values(); }
    WordBound(x, n);
    GlueBound(Low(x, 32 - n), 32 - n, High(x, 32 - n), n);
  }

  lemma OnceIsRotl(w: bv32)
    ensures Nat32(Once(w)) == Rotl(Nat32(w), 1)
  {
    hide Nat32, Once, Rotl, Low, High;
    OnceMeans(w);
    RotlIs(Nat32(w), 1);
    assert Pow2(31) == 0x8000_0000 && Pow2(1) == 2 by { Pow2Of31(); }
    LowIs(Nat32(w), 31, 0x8000_0000);
  }

  lemma Pow2Of31()
    ensures Pow2(31) == 0x8000_0000 && Pow2(1) == 2
  {
    Pow2Values();
    assert Pow2(32) == 2 * Pow2(31);
  }

  function Shifted(t: bv32, n: bv32): bv32
    requires n <= 32
  {
    (t << n) | (t >> (32 - n))
  }

  // Shifting begins with a shift by one, too.
  lemma ShiftedFirst(t: bv32, n: bv32)
    requires 0 < n <= 32
    ensures Shifted(t, n) == Shifted(Once(t), n - 1)
  {
  }

  lemma ShiftedByZero(t: bv32)
    ensures Shifted(t, 0) == t
  {
  }

  // The number of places as a bit vector.
  predicate Places(k: nat, n: bv32)
  {
    n <= 32 && if k == 0 then n == 0 else n > 0 && Places(k - 1, n - 1)
  }

  lemma {:induction false} ShiftedMeans(t: bv32, n: bv32, k: nat)
    requires Places(k, n) && k <= 32
    ensures Nat32(Shifted(t, n)) == Rotl(Nat32(t), k)
    decreases k
  {
    hide Nat32, Once, Shifted, Rotl;
    if k == 0 {
      ShiftedByZero(t);
      RotlByZero(Nat32(t));
    } else {
      ShiftedFirst(t, n);
      OnceIsRotl(t);
      RotlFirst(Nat32(t), k);
      ShiftedMeans(Once(t), n - 1, k - 1);
    }
  }

  lemma RotlByZero(x: uint32)
    ensures Rotl(x, 0) == x
  {
    RotlIs(x, 0);
    Pow2Values();
    LowAll(x, 32);
  }

  // ---------------------------------------------------------------- one operation

  // The shift of operation i as a bit vector.
  predicate IsShift(i: nat, n: bv32)
  {
    match Shift(i)
    case 4 => n == 4 case 5 => n == 5 case 6 => n == 6 case 7 => n == 7
    case 9 => n == 9 case 10 => n == 10 case 11 => n == 11 case 12 => n == 12
    case 14 => n == 14 case 15 => n == 15 case 16 => n == 16 case 17 => n == 17
    case 20 => n == 20 case 21 => n == 21 case 22 => n == 22 case 23 => n == 23
    case _ => false
  }

  lemma ShiftPlaces(i: nat, n: bv32)
    requires IsShift(i, n)
    ensures Places(Shift(i), n)
  {
    assert Places(4, 4) && Places(8, 8) && Places(12, 12) && Places(16, 16) && Places(20, 20);
  }

  function Sum(a: bv32, f: bv32, m: bv32, k: bv32): bv32
  {
    Add32(Add32(Add32(a, f), m), k)
  }

  lemma SumMeans(a: bv32, f: bv32, m: bv32, k: bv32)
    ensures Nat32(Sum(a, f, m, k)) == Plus(Plus(Plus(Nat32(a), Nat32(f)), Nat32(m)), Nat32(k))
  {
    hide Nat32, Add32;
    SumsMean(a, f);
    SumsMean(Add32(a, f), m);
    SumsMean(Add32(Add32(a, f), m), k);
  }

  // The word that operation i writes; m and k are the words of the block and of the table, n is the shift.
  function Next(i: nat, a: bv32, b: bv32, c: bv32, d: bv32, m: bv32, n: bv32, k: bv32): bv32
    requires n <= 32
  {
    Add32(b, Shifted(Sum(a, Select(i, b, c, d), m, k), n))
  }

  // The state after n operations.
  predicate Reaches(n: nat, x: seq<uint32>, s: Abcd, a: bv32, b: bv32, c: bv32, d: bv32)
  {
    n <= 64 && |x| == 16 && Operations(n, s, x) == Words(a, b, c, d)
  }

  lemma Step(i: nat, x: seq<uint32>, s: Abcd, a: bv32, b: bv32, c: bv32, d: bv32, m: bv32, n: bv32, k: bv32, e: bv32)
    requires i < 64 && Reaches(i, x, s, a, b, c, d) && x[WordIndex(i)] == Nat32(m) && SINES[i] == k
    requires n <= 32 && IsShift(i, n) && e == Next(i, a, b, c, d, m, n, k)
    ensures Reaches(i + 1, x, s, d, e, b, c)
  {
    hide Nat32, Select, Sum, Mixed, Rotl, SINES, Places, Add32, Shift, Shifted, IsShift, Plus, WordIndex;
    var h := Sum(a, Select(i, b, c, d), m, k);
    SelectMeans(i, a, b, c, d);
    SumMeans(a, Select(i, b, c, d), m, k);
    ShiftPlaces(i, n);
    ShiftedMeans(h, n, Shift(i));
    PlusIs(b, Shifted(h, n));
  }

  lemma PlusIs(v: bv32, w: bv32)
    ensures Nat32(Add32(v, w)) == Plus(Nat32(v), Nat32(w))
  {
    hide Nat32, Add32;
    SumsMean(v, w);
  }

  lemma NoSteps(x: seq<uint32>, a: bv32, b: bv32, c: bv32, d: bv32)
    requires |x| == 16
    ensures Reaches(0, x, Words(a, b, c, d), a, b, c, d)
  {
  }

  lemma CompressIs(block: seq<byte>, a: bv32, b: bv32, c: bv32, d: bv32, e: bv32, f: bv32, g: bv32, h: bv32)
    requires |block| == 64 && Reaches(64, BlockWords(block), Words(a, b, c, d), e, f, g, h)
    ensures Compress(Words(a, b, c, d), block) == Words(Add32(a, e), Add32(b, f), Add32(c, g), Add32(d, h))
  {
    hide Nat32, Add32, Plus, Operations, BlockWords;
    PlusIs(a, e);
    PlusIs(b, f);
    PlusIs(c, g);
    PlusIs(d, h);
  }

  // ---------------------------------------------------------------- the table

  lemma Sines0()
    ensures SINES[0] == 0xd76a_a478 && SINES[1] == 0xe8c7_b756 && SINES[2] == 0x2420_70db && SINES[3] == 0xc1bd_ceee
    ensures SINES[4] == 0xf57c_0faf && SINES[5] == 0x4787_c62a && SINES[6] == 0xa830_4613 && SINES[7] == 0xfd46_9501
  {
  }

  lemma Sines8()
    ensures SINES[8] == 0x6980_98d8 && SINES[9] == 0x8b44_f7af && SINES[10] == 0xffff_5bb1 && SINES[11] == 0x895c_d7be
    ensures SINES[12] == 0x6b90_1122 && SINES[13] == 0xfd98_7193 && SINES[14] == 0xa679_438e && SINES[15] == 0x49b4_0821
  {
  }

  lemma Sines16()
    ensures SINES[16] == 0xf61e_2562 && SINES[17] == 0xc040_b340 && SINES[18] == 0x265e_5a51 && SINES[19] == 0xe9b6_c7aa
    ensures SINES[20] == 0xd62f_105d && SINES[21] == 0x244_1453 && SINES[22] == 0xd8a1_e681 && SINES[23] == 0xe7d3_fbc8
  {
  }

  lemma Sines24()
    ensures SINES[24] == 0x21e1_cde6 && SINES[25] == 0xc337_07d6 && SINES[26] == 0xf4d5_0d87 && SINES[27] == 0x455a_14ed
    ensures SINES[28] == 0xa9e3_e905 && SINES[29] == 0xfcef_a3f8 && SINES[30] == 0x676f_02d9 && SINES[31] == 0x8d2a_4c8a
  {
  }

  lemma Sines32()
    ensures SINES[32] == 0xfffa_3942 && SINES[33] == 0x8771_f681 && SINES[34] == 0x6d9d_6122 && SINES[35] == 0xfde5_380c
    ensures SINES[36] == 0xa4be_ea44 && SINES[37] == 0x4bde_cfa9 && SINES[38] == 0xf6bb_4b60 && SINES[39] == 0xbebf_bc70
  {
  }

  lemma Sines40()
    ensures SINES[40] == 0x289b_7ec6 && SINES[41] == 0xeaa1_27fa && SINES[42] == 0xd4ef_3085 && SINES[43] == 0x488_1d05
    ensures SINES[44] == 0xd9d4_d039 && SINES[45] == 0xe6db_99e5 && SINES[46] == 0x1fa2_7cf8 && SINES[47] == 0xc4ac_5665
  {
  }

  lemma Sines48()
    ensures SINES[48] == 0xf429_2244 && SINES[49] == 0x432a_ff97 && SINES[50] == 0xab94_23a7 && SINES[51] == 0xfc93_a039
    ensures SINES[52] == 0x655b_59c3 && SINES[53] == 0x8f0c_cc92 && SINES[54] == 0xffef_f47d && SINES[55] == 0x8584_5dd1
  {
  }

  lemma Sines56()
    ensures SINES[56] == 0x6fa8_7e4f && SINES[57] == 0xfe2c_e6e0 && SINES[58] == 0xa301_4314 && SINES[59] == 0x4e08_11a1
    ensures SINES[60] == 0xf753_7e82 && SINES[61] == 0xbd3a_f235 && SINES[62] == 0x2ad7_d2bb && SINES[63] == 0xeb86_d391
  {
  }

  // ---------------------------------------------------------------- bytes and words

  lemma FirstLittleByte(y: nat, b: nat, n: nat)
    requires b < 256
    ensures LittleBytes(y * 0x100 + b, n + 1) == [b] + LittleBytes(y, n)
  {
    ModUnique(y * 0x100 + b, 0x100, y, b);
  }

  lemma FourLittleBytes(a: nat, b: nat, c: nat, d: nat)
    requires a < 256 && b < 256 && c < 256 && d < 256
    ensures LittleBytes(FromBytes(d, c, b, a), 4) == [a, b, c, d]
  {
    assert LittleBytes(0, 0) == [];
    hide LittleBytes;
    var z := d * 0x100 + c;
    FirstLittleByte(z * 0x100 + b, a, 3);
    FirstLittleByte(z, b, 2);
    FirstLittleByte(d, c, 1);
    FirstLittleByte(0, d, 0);
  }

  lemma WordBytesAre(w: bv32)
    ensures WordBytes(Nat32(w)) == [Nat8(Byte(w, 0)), Nat8(Byte(w, 1)), Nat8(Byte(w, 2)), Nat8(Byte(w, 3))]
  {
    hide Nat8, Byte, FromBytes, LittleBytes;
    FourLittleBytes(Nat8(Byte(w, 0)), Nat8(Byte(w, 1)), Nat8(Byte(w, 2)), Nat8(Byte(w, 3)));
  }

  lemma BlockWordIs(block: seq<byte>, i: nat, a: bv8, b: bv8, c: bv8, d: bv8)
    requires |block| == 64 && i < 16
    requires block[4 * i] == Nat8(a) && block[4 * i + 1] == Nat8(b)
    requires block[4 * i + 2] == Nat8(c) && block[4 * i + 3] == Nat8(d)
    ensures BlockWords(block)[i] == FromBytes(Nat8(d), Nat8(c), Nat8(b), Nat8(a))
  {
    hide Nat8;
  }

  lemma InitialIs()
    ensures INITIAL == Words(0x6745_2301, 0xefcd_ab89, 0x98ba_dcfe, 0x1032_5476)
  {
  }

  lemma StateBytesAre(a: bv32, b: bv32, c: bv32, d: bv32)
    ensures StateBytes(Words(a, b, c, d)) ==
      [Nat8(Byte(a, 0)), Nat8(Byte(a, 1)), Nat8(Byte(a, 2)), Nat8(Byte(a, 3)),
       Nat8(Byte(b, 0)), Nat8(Byte(b, 1)), Nat8(Byte(b, 2)), Nat8(Byte(b, 3)),
       Nat8(Byte(c, 0)), Nat8(Byte(c, 1)), Nat8(Byte(c, 2)), Nat8(Byte(c, 3)),
       Nat8(Byte(d, 0)), Nat8(Byte(d, 1)), Nat8(Byte(d, 2)), Nat8(Byte(d, 3))]
  {
    hide Nat8, Byte, Nat32, WordBytes;
    WordBytesAre(a);
    WordBytesAre(b);
    WordBytesAre(c);
    WordBytesAre(d);
  }

  // ---------------------------------------------------------------- the empty message

  predicate EmptyWords(x: seq<uint32>)
  {
    && |x| == 16 && x[0] == Nat32(0x80)
    && x[1] == x[2] == x[3] == x[4] == x[5] == x[6] == x[7] == x[8] == Nat32(0)
    && x[9] == x[10] == x[11] == x[12] == x[13] == x[14] == x[15] == Nat32(0)
  }

  lemma Empty0(x: seq<uint32>, s: Abcd)
    requires EmptyWords(x) && Reaches(0, x, s, 0x6745_2301, 0xefcd_ab89, 0x98ba_dcfe, 0x1032_5476)
    ensures Reaches(8, x, s, 0x3203_3344, 0x9bc1_3ce9, 0xf5b1_58db, 0x2f35_d494)
  {
    hide Reaches, SINES, Nat32;
    Sines0();
    Step(0, x, s, 0x6745_2301, 0xefcd_ab89, 0x98ba_dcfe, 0x1032_5476, 0x80, 7, 0xd76a_a478,
         0xa520_2774);
    Step(1, x, s, 0x1032_5476, 0xa520_2774, 0xefcd_ab89, 0x98ba_dcfe, 0x0, 12, 0xe8c7_b756,
         0xf595_92dd);
    Step(2, x, s, 0x98ba_dcfe, 0xf595_92dd, 0xa520_2774, 0xefcd_ab89, 0x0, 17, 0x2420_70db,
         0xe7f0_6b23);
    Step(3, x, s, 0xefcd_ab89, 0xe7f0_6b23, 0xf595_92dd, 0xa520_2774, 0x0, 22, 0xc1bd_ceee,
         0x1b16_3203);
    Step(4, x, s, 0xa520_2774, 0x1b16_3203, 0xe7f0_6b23, 0xf595_92dd, 0x0, 7, 0xf57c_0faf,
         0x3203_3344);
    Step(5, x, s, 0xf595_92dd, 0x3203_3344, 0x1b16_3203, 0xe7f0_6b23, 0x0, 12, 0x4787_c62a,
         0x2f35_d494);
    Step(6, x, s, 0xe7f0_6b23, 0x2f35_d494, 0x3203_3344, 0x1b16_3203, 0x0, 17, 0xa830_4613,
         0xf5b1_58db);
    Step(7, x, s, 0x1b16_3203, 0xf5b1_58db, 0x2f35_d494, 0x3203_3344, 0x0, 22, 0xfd46_9501,
         0x9bc1_3ce9);
  }

  lemma Empty8(x: seq<uint32>, s: Abcd)
    requires EmptyWords(x) && Reaches(8, x, s, 0x3203_3344, 0x9bc1_3ce9, 0xf5b1_58db, 0x2f35_d494)
    ensures Reaches(16, x, s, 0xf56c_7cf1, 0xd681_9c6a, 0x5aa5_3f75, 0x3749_43a7)
  {
    hide Reaches, SINES, Nat32;
    Sines8();
    Step(8, x, s, 0x3203_3344, 0x9bc1_3ce9, 0xf5b1_58db, 0x2f35_d494, 0x0, 7, 0x6980_98d8,
         0x3893_b991);
    Step(9, x, s, 0x2f35_d494, 0x3893_b991, 0x9bc1_3ce9, 0xf5b1_58db, 0x0, 12, 0x8b44_f7af,
         0xfce4_a312);
    Step(10, x, s, 0xf5b1_58db, 0xfce4_a312, 0x3893_b991, 0x9bc1_3ce9, 0x0, 17, 0xffff_5bb1,
         0xe1ef_0576);
    Step(11, x, s, 0x9bc1_3ce9, 0xe1ef_0576, 0xfce4_a312, 0x3893_b991, 0x0, 22, 0x895c_d7be,
         0x7076_8a29);
    Step(12, x, s, 0x3893_b991, 0x7076_8a29, 0xe1ef_0576, 0xfce4_a312, 0x0, 7, 0x6b90_1122,
         0xf56c_7cf1);
    Step(13, x, s, 0xfce4_a312, 0xf56c_7cf1, 0x7076_8a29, 0xe1ef_0576, 0x0, 12, 0xfd98_7193,
         0x3749_43a7);
    Step(14, x, s, 0xe1ef_0576, 0x3749_43a7, 0xf56c_7cf1, 0x7076_8a29, 0x0, 17, 0xa679_438e,
         0x5aa5_3f75);
    Step(15, x, s, 0x7076_8a29, 0x5aa5_3f75, 0x3749_43a7, 0xf56c_7cf1, 0x0, 22, 0x49b4_0821,
         0xd681_9c6a);
  }

  lemma Empty16(x: seq<uint32>, s: Abcd)
    requires EmptyWords(x) && Reaches(16, x, s, 0xf56c_7cf1, 0xd681_9c6a, 0x5aa5_3f75, 0x3749_43a7)
    ensures Reaches(24, x, s, 0x3d1e_3e6c, 0xe422_531a, 0xeb41_643e, 0x68b7_b3e3)
  {
    hide Reaches, SINES, Nat32;
    Sines16();
    Step(16, x, s, 0xf56c_7cf1, 0xd681_9c6a, 0x5aa5_3f75, 0x3749_43a7, 0x0, 5, 0xf61e_2562,
         0x1c7d_7513);
    Step(17, x, s, 0x3749_43a7, 0x1c7d_7513, 0xd681_9c6a, 0x5aa5_3f75, 0x0, 9, 0xc040_b340,
         0x7bd5_7a3a);
    Step(18, x, s, 0x5aa5_3f75, 0x7bd5_7a3a, 0x1c7d_7513, 0xd681_9c6a, 0x0, 14, 0x265e_5a51,
         0xc095_f13a);
    Step(19, x, s, 0xd681_9c6a, 0xc095_f13a, 0x7bd5_7a3a, 0x1c7d_7513, 0x80, 20, 0xe9b6_c7aa,
         0xbd78_2e17);
    Step(20, x, s, 0x1c7d_7513, 0xbd78_2e17, 0xc095_f13a, 0x7bd5_7a3a, 0x0, 5, 0xd62f_105d,
         0x3d1e_3e6c);
    Step(21, x, s, 0x7bd5_7a3a, 0x3d1e_3e6c, 0xbd78_2e17, 0xc095_f13a, 0x0, 9, 0x244_1453,
         0x68b7_b3e3);
    Step(22, x, s, 0xc095_f13a, 0x68b7_b3e3, 0x3d1e_3e6c, 0xbd78_2e17, 0x0, 14, 0xd8a1_e681,
         0xeb41_643e);
    Step(23, x, s, 0xbd78_2e17, 0xeb41_643e, 0x68b7_b3e3, 0x3d1e_3e6c, 0x0, 20, 0xe7d3_fbc8,
         0xe422_531a);
  }

  lemma Empty24(x: seq<uint32>, s: Abcd)
    requires EmptyWords(x) && Reaches(24, x, s, 0x3d1e_3e6c, 0xe422_531a, 0xeb41_643e, 0x68b7_b3e3)
    ensures Reaches(32, x, s, 0x1370_7036, 0xa220_5f1f, 0x1c31_c384, 0xae78_13db)
  {
    hide Reaches, SINES, Nat32;
    Sines24();
    Step(24, x, s, 0x3d1e_3e6c, 0xe422_531a, 0xeb41_643e, 0x68b7_b3e3, 0x0, 5, 0x21e1_cde6,
         0x306e_c122);
    Step(25, x, s, 0x68b7_b3e3, 0x306e_c122, 0xe422_531a, 0xeb41_643e, 0x0, 9, 0xc337_07d6,
         0xd28c_77c2);
    Step(26, x, s, 0xeb41_643e, 0xd28c_77c2, 0x306e_c122, 0xe422_531a, 0x0, 14, 0xf4d5_0d87,
         0xa3c6_63da);
    Step(27, x, s, 0xe422_531a, 0xa3c6_63da, 0xd28c_77c2, 0x306e_c122, 0x0, 20, 0x455a_14ed,
         0xa057_2807);
    Step(28, x, s, 0x306e_c122, 0xa057_2807, 0xa3c6_63da, 0xd28c_77c2, 0x0, 5, 0xa9e3_e905,
         0x1370_7036);
    Step(29, x, s, 0xd28c_77c2, 0x1370_7036, 0xa057_2807, 0xa3c6_63da, 0x0, 9, 0xfcef_a3f8,
         0xae78_13db);
    Step(30, x, s, 0xa3c6_63da, 0xae78_13db, 0x1370_7036, 0xa057_2807, 0x0, 14, 0x676f_02d9,
         0x1c31_c384);
    Step(31, x, s, 0xa057_2807, 0x1c31_c384, 0xae78_13db, 0x1370_7036, 0x0, 20, 0x8d2a_4c8a,
         0xa220_5f1f);
  }

  lemma Empty32(x: seq<uint32>, s: Abcd)
    requires EmptyWords(x) && Reaches(32, x, s, 0x1370_7036, 0xa220_5f1f, 0x1c31_c384, 0xae78_13db)
    ensures Reaches(40, x, s, 0x5f7a_9b2e, 0xc5dc_8c15, 0x91ca_4cb7, 0xabc3_4e16)
  {
    hide Reaches, SINES, Nat32;
    Sines32();
    Step(32, x, s, 0x1370_7036, 0xa220_5f1f, 0x1c31_c384, 0xae78_13db, 0x0, 4, 0xfffa_3942,
         0xdf63_eaa1);
    Step(33, x, s, 0xae78_13db, 0xdf63_eaa1, 0xa220_5f1f, 0x1c31_c384, 0x0, 11, 0x8771_f681,
         0xc368_9f5b);
    Step(34, x, s, 0x1c31_c384, 0xc368_9f5b, 0xdf63_eaa1, 0xa220_5f1f, 0x0, 16, 0x6d9d_6122,
         0x12f3_e755);
    Step(35, x, s, 0xa220_5f1f, 0x12f3_e755, 0xc368_9f5b, 0xdf63_eaa1, 0x0, 23, 0xfde5_380c,
         0x4b_6669);
    Step(36, x, s, 0xdf63_eaa1, 0x4b_6669, 0x12f3_e755, 0xc368_9f5b, 0x0, 4, 0xa4be_ea44,
         0x5f7a_9b2e);
    Step(37, x, s, 0xc368_9f5b, 0x5f7a_9b2e, 0x4b_6669, 0x12f3_e755, 0x0, 11, 0x4bde_cfa9,
         0xabc3_4e16);
    Step(38, x, s, 0x12f3_e755, 0xabc3_4e16, 0x5f7a_9b2e, 0x4b_6669, 0x0, 16, 0xf6bb_4b60,
         0x91ca_4cb7);
    Step(39, x, s, 0x4b_6669, 0x91ca_4cb7, 0xabc3_4e16, 0x5f7a_9b2e, 0x0, 23, 0xbebf_bc70,
         0xc5dc_8c15);
  }

  lemma Empty40(x: seq<uint32>, s: Abcd)
    requires EmptyWords(x) && Reaches(40, x, s, 0x5f7a_9b2e, 0xc5dc_8c15, 0x91ca_4cb7, 0xabc3_4e16)
    ensures Reaches(48, x, s, 0x3f55_edfd, 0xca7d_2dbd, 0x68d8_4ea2, 0x22a3_1f54)
  {
    hide Reaches, SINES, Nat32;
    Sines40();
    Step(40, x, s, 0x5f7a_9b2e, 0xc5dc_8c15, 0x91ca_4cb7, 0xabc3_4e16, 0x0, 4, 0x289b_7ec6,
         0x4497_169d);
    Step(41, x, s, 0xabc3_4e16, 0x4497_169d, 0xc5dc_8c15, 0x91ca_4cb7, 0x80, 11, 0xeaa1_27fa,
         0x76fd_93d4);
    Step(42, x, s, 0x91ca_4cb7, 0x76fd_93d4, 0x4497_169d, 0xc5dc_8c15, 0x0, 16, 0xd4ef_3085,
         0xfd95_f243);
    Step(43, x, s, 0xc5dc_8c15, 0xfd95_f243, 0x76fd_93d4, 0x4497_169d, 0x0, 23, 0x488_1d05,
         0xfe3_2453);
    Step(44, x, s, 0x4497_169d, 0xfe3_2453, 0xfd95_f243, 0x76fd_93d4, 0x0, 4, 0xd9d4_d039,
         0x3f55_edfd);
    Step(45, x, s, 0x76fd_93d4, 0x3f55_edfd, 0xfe3_2453, 0xfd95_f243, 0x0, 11, 0xe6db_99e5,
         0x22a3_1f54);
    Step(46, x, s, 0xfd95_f243, 0x22a3_1f54, 0x3f55_edfd, 0xfe3_2453, 0x0, 16, 0x1fa2_7cf8,
         0x68d8_4ea2);
    Step(47, x, s, 0xfe3_2453, 0x68d8_4ea2, 0x22a3_1f54, 0x3f55_edfd, 0x0, 23, 0xc4ac_5665,
         0xca7d_2dbd);
  }

  lemma Empty48(x: seq<uint32>, s: Abcd)
    requires EmptyWords(x) && Reaches(48, x, s, 0x3f55_edfd, 0xca7d_2dbd, 0x68d8_4ea2, 0x22a3_1f54)
    ensures Reaches(56, x, s, 0x5625_a114, 0x1e77_fa61, 0x392a_d0d0, 0x3450_f42b)
  {
    hide Reaches, SINES, Nat32;
    Sines48();
    Step(48, x, s, 0x3f55_edfd, 0xca7d_2dbd, 0x68d8_4ea2, 0x22a3_1f54, 0x80, 6, 0xf429_2244,
         0x93aa_2577);
    Step(49, x, s, 0x22a3_1f54, 0x93aa_2577, 0xca7d_2dbd, 0x68d8_4ea2, 0x0, 10, 0x432a_ff97,
         0x1688_dc85);
    Step(50, x, s, 0x68d8_4ea2, 0x1688_dc85, 0x93aa_2577, 0xca7d_2dbd, 0x0, 15, 0xab94_23a7,
         0xcd85_b8cb);
    Step(51, x, s, 0xca7d_2dbd, 0xcd85_b8cb, 0x1688_dc85, 0x93aa_2577, 0x0, 21, 0xfc93_a039,
         0x561e_0689);
    Step(52, x, s, 0x93aa_2577, 0x561e_0689, 0xcd85_b8cb, 0x1688_dc85, 0x0, 6, 0x655b_59c3,
         0x5625_a114);
    Step(53, x, s, 0x1688_dc85, 0x5625_a114, 0x561e_0689, 0xcd85_b8cb, 0x0, 10, 0x8f0c_cc92,
         0x3450_f42b);
    Step(54, x, s, 0xcd85_b8cb, 0x3450_f42b, 0x5625_a114, 0x561e_0689, 0x0, 15, 0xffef_f47d,
         0x392a_d0d0);
    Step(55, x, s, 0x561e_0689, 0x392a_d0d0, 0x3450_f42b, 0x5625_a114, 0x0, 21, 0x8584_5dd1,
         0x1e77_fa61);
  }

  lemma Empty56(x: seq<uint32>, s: Abcd)
    requires EmptyWords(x) && Reaches(56, x, s, 0x5625_a114, 0x1e77_fa61, 0x392a_d0d0, 0x3450_f42b)
    ensures Reaches(64, x, s, 0x7246_fad3, 0x14e4_5506, 0xff4e_a3eb, 0x6e10_a476)
  {
    hide Reaches, SINES, Nat32;
    Sines56();
    Step(56, x, s, 0x5625_a114, 0x1e77_fa61, 0x392a_d0d0, 0x3450_f42b, 0x0, 6, 0x6fa8_7e4f,
         0x474a_9c8c);
    Step(57, x, s, 0x3450_f42b, 0x474a_9c8c, 0x1e77_fa61, 0x392a_d0d0, 0x0, 10, 0xfe2c_e6e0,
         0xdfce_00bc);
    Step(58, x, s, 0x392a_d0d0, 0xdfce_00bc, 0x474a_9c8c, 0x1e77_fa61, 0x0, 15, 0xa301_4314,
         0x3659_4b14);
    Step(59, x, s, 0x1e77_fa61, 0x3659_4b14, 0xdfce_00bc, 0x474a_9c8c, 0x0, 21, 0x4e08_11a1,
         0x3013_0182);
    Step(60, x, s, 0x474a_9c8c, 0x3013_0182, 0x3659_4b14, 0xdfce_00bc, 0x0, 6, 0xf753_7e82,
         0x7246_fad3);
    Step(61, x, s, 0xdfce_00bc, 0x7246_fad3, 0x3013_0182, 0x3659_4b14, 0x0, 10, 0xbd3a_f235,
         0x6e10_a476);
    Step(62, x, s, 0x3659_4b14, 0x6e10_a476, 0x7246_fad3, 0x3013_0182, 0x0, 15, 0x2ad7_d2bb,
         0xff4e_a3eb);
    Step(63, x, s, 0x3013_0182, 0xff4e_a3eb, 0x6e10_a476, 0x7246_fad3, 0x0, 21, 0xeb86_d391,
         0x14e4_5506);
  }

  lemma EmptyCompresses(block: seq<byte>)
    requires |block| == 64 && EmptyWords(BlockWords(block))
    ensures Reaches(64, BlockWords(block), Words(0x6745_2301, 0xefcd_ab89, 0x98ba_dcfe, 0x1032_5476),
                    0x7246_fad3, 0x14e4_5506, 0xff4e_a3eb, 0x6e10_a476)
  {
    var x, s := BlockWords(block), Words(0x6745_2301, 0xefcd_ab89, 0x98ba_dcfe, 0x1032_5476);
    assert |x| == 16;
    hide Reaches, Nat32, BlockWords, EmptyWords;
    NoSteps(x, 0x6745_2301, 0xefcd_ab89, 0x98ba_dcfe, 0x1032_5476);
    Empty0(x, s);
    Empty8(x, s);
    Empty16(x, s);
    Empty24(x, s);
    Empty32(x, s);
    Empty40(x, s);
    Empty48(x, s);
    Empty56(x, s);
  }

  lemma EmptyPadding()
    ensures |Pad([])| == 64 && Pad([])[0] == 0x80 && forall i :: 0 < i < 64 ==> Pad([])[i] == 0
  {
    assert LittleBytes(0, 8) == Zeros(8) by { ZeroBytes(8); }
  }

  lemma EmptyBlockWords(block: seq<byte>)
    requires |block| == 64 && block[0] == 0x80 && forall i :: 0 < i < 64 ==> block[i] == 0
    ensures |BlockWords(block)| == 16
    ensures BlockWords(block)[0] == 0x80 && forall i :: 0 < i < 16 ==> BlockWords(block)[i] == 0
  {
    forall i | 0 <= i < 16 ensures BlockWords(block)[i] == if i == 0 then 0x80 else 0 {
      assert i > 0 ==> block[4 * i] == block[4 * i + 1] == block[4 * i + 2] == block[4 * i + 3] == 0;
    }
  }

  lemma ZeroIs()
    ensures Nat32(0) == 0
  {
  }

  lemma MarkIs()
    ensures Nat32(0x80) == 0x80
  {
  }

  lemma EmptyIsPadded()
    ensures |Pad([])| == 64 && EmptyWords(BlockWords(Pad([])))
  {
    hide Pad, Nat32, BlockWords;
    EmptyPadding();
    EmptyBlockWords(Pad([]));
    ZeroIs();
    MarkIs();
  }

  lemma {:induction false} ZeroBytes(n: nat)
    ensures LittleBytes(0, n) == Zeros(n)
  {
    if n > 0 { ZeroBytes(n - 1); }
  }

  /** MD5 of the empty message. */
  lemma DigestOfEmpty()
    ensures Digest([]) == [0xd4, 0x1d, 0x8c, 0xd9, 0x8f, 0x00, 0xb2, 0x04,
                           0xe9, 0x80, 0x09, 0x98, 0xec, 0xf8, 0x42, 0x7e]
  {
    hide Pad, CompressAll, Nat32, BlockWords, EmptyWords, Reaches, Compress, StateBytes;
    EmptyIsPadded();
    InitialIs();
    OneBlock(INITIAL, Pad([]));
    EmptyCompresses(Pad([]));
    CompressIs(Pad([]), 0x6745_2301, 0xefcd_ab89, 0x98ba_dcfe, 0x1032_5476,
               0x7246_fad3, 0x14e4_5506, 0xff4e_a3eb, 0x6e10_a476);
    StateBytesAre(0xd98c_1dd4, 0x4b2_008f, 0x9809_80e9, 0x7e42_f8ec);
  }

  // ---------------------------------------------------------------- letters and digits

  const UPPER := "ABCDEFGHIJKLMNOPQRSTUVWXYZ"
  const LOWER := "abcdefghijklmnopqrstuvwxyz"
  const DIGITS := "0123456789"

  // The code of character i of these three.
  function Code(i: nat): byte
    requires i < 62
  {
    if i < 26 then 65 + i else if i < 52 then 71 + i else i - 4
  }

  function Ascii(text: string): (bytes: seq<byte>)
    requires forall i :: 0 <= i < |text| ==> text[i] < '\U{80}'
    ensures |bytes| == |text| && forall i :: 0 <= i < |text| ==> bytes[i] == text[i] as int
  {
    seq(|text|, i requires 0 <= i < |text| => text[i] as int)
  }

  lemma UpperIs(i: nat)
    requires i < 26
    ensures UPPER[i] as int == 65 + i
  {
  }

  lemma LowerIs(i: nat)
    requires i < 26
    ensures LOWER[i] as int == 97 + i
  {
  }

  lemma DigitsAre(i: nat)
    requires i < 10
    ensures DIGITS[i] as int == 48 + i
  {
  }
  const ALPHABETS := UPPER + LOWER + DIGITS

  lemma AlphabetLengths()
    ensures |UPPER| == |LOWER| == 26 && |DIGITS| == 10
  {
  }

  lemma CodeIs(i: nat)
    requires i < 62
    ensures ALPHABETS[i] as int == Code(i)
  {
    hide UPPER, LOWER, DIGITS;
    AlphabetLengths();
    if i < 26 {
      UpperIs(i);
    } else if i < 52 {
      LowerIs(i - 26);
    } else {
      DigitsAre(i - 52);
    }
  }

  lemma AlphabetsAreAscii()
    ensures |ALPHABETS| == 62 && forall i :: 0 <= i < 62 ==> ALPHABETS[i] < '\U{80}' && ALPHABETS[i] as int == Code(i)
  {
    assert |ALPHABETS| == 62;
    hide UPPER, LOWER, DIGITS, ALPHABETS;
    forall i | 0 <= i < 62 ensures ALPHABETS[i] < '\U{80}' && ALPHABETS[i] as int == Code(i) {
      CodeIs(i);
    }
  }

  // The two blocks of the padded message, byte by byte.
  ghost predicate LetterBlock(block: seq<byte>)
  {
    && |block| == 64
    && (forall i :: 0 <= i < 62 ==> block[i] == Code(i))
    && block[62] == 0x80 && block[63] == 0
  }

  ghost predicate LengthBlock(block: seq<byte>)
  {
    && |block| == 64
    && forall i :: 0 <= i < 64 ==> block[i] == if i == 56 then 0xf0 else if i == 57 then 1 else 0
  }

  predicate EightWords(x: seq<uint32>)
    requires |x| == 16
  {
    && x[0] == Nat32(0x4443_4241) && x[1] == Nat32(0x4847_4645)
    && x[2] == Nat32(0x4c4b_4a49) && x[3] == Nat32(0x504f_4e4d)
    && x[4] == Nat32(0x5453_5251) && x[5] == Nat32(0x5857_5655)
    && x[6] == Nat32(0x6261_5a59) && x[7] == Nat32(0x6665_6463)
  }

  predicate OtherEightWords(x: seq<uint32>)
    requires |x| == 16
  {
    && x[8] == Nat32(0x6a69_6867) && x[9] == Nat32(0x6e6d_6c6b)
    && x[10] == Nat32(0x7271_706f) && x[11] == Nat32(0x7675_7473)
    && x[12] == Nat32(0x7a79_7877) && x[13] == Nat32(0x3332_3130)
    && x[14] == Nat32(0x3736_3534) && x[15] == Nat32(0x80_3938)
  }

  predicate LetterWords(x: seq<uint32>)
  {
    |x| == 16 && EightWords(x) && OtherEightWords(x)
  }

  predicate LengthWords(x: seq<uint32>)
  {
    && |x| == 16 && x[14] == Nat32(0x1f0)
    && x[0] == x[1] == x[2] == x[3] == x[4] == x[5] == x[6] == x[7] == Nat32(0)
    && x[8] == x[9] == x[10] == x[11] == x[12] == x[13] == x[15] == Nat32(0)
  }

  lemma LetterBlockWords(block: seq<byte>)
    requires LetterBlock(block)
    ensures LetterWords(BlockWords(block))
  {
    var x := BlockWords(block);
    assert x[0] == 0x4443_4241 && x[1] == 0x4847_4645;
    assert x[2] == 0x4c4b_4a49 && x[3] == 0x504f_4e4d;
    assert x[4] == 0x5453_5251 && x[5] == 0x5857_5655;
    assert x[6] == 0x6261_5a59 && x[7] == 0x6665_6463;
    assert x[8] == 0x6a69_6867 && x[9] == 0x6e6d_6c6b;
    assert x[10] == 0x7271_706f && x[11] == 0x7675_7473;
    assert x[12] == 0x7a79_7877 && x[13] == 0x3332_3130;
    assert x[14] == 0x3736_3534 && x[15] == 0x80_3938;
    assert |x| == 16;
    hide BlockWords, LetterBlock;
    LetterConstants();
  }

  lemma LetterConstants()
    ensures Nat32(0x4443_4241) == 0x4443_4241 && Nat32(0x4847_4645) == 0x4847_4645
    ensures Nat32(0x4c4b_4a49) == 0x4c4b_4a49 && Nat32(0x504f_4e4d) == 0x504f_4e4d
    ensures Nat32(0x5453_5251) == 0x5453_5251 && Nat32(0x5857_5655) == 0x5857_5655
    ensures Nat32(0x6261_5a59) == 0x6261_5a59 && Nat32(0x6665_6463) == 0x6665_6463
    ensures Nat32(0x6a69_6867) == 0x6a69_6867 && Nat32(0x6e6d_6c6b) == 0x6e6d_6c6b
    ensures Nat32(0x7271_706f) == 0x7271_706f && Nat32(0x7675_7473) == 0x7675_7473
    ensures Nat32(0x7a79_7877) == 0x7a79_7877 && Nat32(0x3332_3130) == 0x3332_3130
    ensures Nat32(0x3736_3534) == 0x3736_3534 && Nat32(0x80_3938) == 0x80_3938
  {
  }

  lemma LengthBlockWords(block: seq<byte>)
    requires LengthBlock(block)
    ensures LengthWords(BlockWords(block))
  {
    hide BlockWords, Nat32;
    LengthBlockNumbers(block);
    ZeroIs();
    LengthIs();
  }

  lemma LengthBlockNumbers(block: seq<byte>)
    requires LengthBlock(block)
    ensures |BlockWords(block)| == 16
    ensures forall i :: 0 <= i < 16 ==> BlockWords(block)[i] == if i == 14 then 0x1f0 else 0
  {
  }

  lemma LengthIs()
    ensures Nat32(0x1f0) == 0x1f0
  {
  }

  lemma Letter0(x: seq<uint32>, s: Abcd)
    requires LetterWords(x) && Reaches(0, x, s, 0x6745_2301, 0xefcd_ab89, 0x98ba_dcfe, 0x1032_5476)
    ensures Reaches(8, x, s, 0xf22e_6c4e, 0xa479_9506, 0xa95a_2fc0, 0xb4ac_9218)
  {
    hide Reaches, SINES, Nat32;
    Sines0();
    Step(0, x, s, 0x6745_2301, 0xefcd_ab89, 0x98ba_dcfe, 0x1032_5476, 0x4443_4241, 7, 0xd76a_a478,
         0xc6c1_0796);
    Step(1, x, s, 0x1032_5476, 0xc6c1_0796, 0xefcd_ab89, 0x98ba_dcfe, 0x4847_4645, 12, 0xe8c7_b756,
         0x99a0_9999);
    Step(2, x, s, 0x98ba_dcfe, 0x99a0_9999, 0xc6c1_0796, 0xefcd_ab89, 0x4c4b_4a49, 17, 0x2420_70db,
         0x1106_7980);
    Step(3, x, s, 0xefcd_ab89, 0x1106_7980, 0x99a0_9999, 0xc6c1_0796, 0x504f_4e4d, 22, 0xc1bd_ceee,
         0x27bc_e07a);
    Step(4, x, s, 0xc6c1_0796, 0x27bc_e07a, 0x1106_7980, 0x99a0_9999, 0x5453_5251, 7, 0xf57c_0faf,
         0xf22e_6c4e);
    Step(5, x, s, 0x99a0_9999, 0xf22e_6c4e, 0x27bc_e07a, 0x1106_7980, 0x5857_5655, 12, 0x4787_c62a,
         0xb4ac_9218);
    Step(6, x, s, 0x1106_7980, 0xb4ac_9218, 0xf22e_6c4e, 0x27bc_e07a, 0x6261_5a59, 17, 0xa830_4613,
         0xa95a_2fc0);
    Step(7, x, s, 0x27bc_e07a, 0xa95a_2fc0, 0xb4ac_9218, 0xf22e_6c4e, 0x6665_6463, 22, 0xfd46_9501,
         0xa479_9506);
  }

  lemma Letter8(x: seq<uint32>, s: Abcd)
    requires LetterWords(x) && Reaches(8, x, s, 0xf22e_6c4e, 0xa479_9506, 0xa95a_2fc0, 0xb4ac_9218)
    ensures Reaches(16, x, s, 0x3cbd_cd45, 0x5d38_e690, 0xfa14_8c8a, 0xb8de_c763)
  {
    hide Reaches, SINES, Nat32;
    Sines8();
    Step(8, x, s, 0xf22e_6c4e, 0xa479_9506, 0xa95a_2fc0, 0xb4ac_9218, 0x6a69_6867, 7, 0x6980_98d8,
         0x1eb3_e7c1);
    Step(9, x, s, 0xb4ac_9218, 0x1eb3_e7c1, 0xa479_9506, 0xa95a_2fc0, 0x6e6d_6c6b, 12, 0x8b44_f7af,
         0xa6e7_0cfe);
    Step(10, x, s, 0xa95a_2fc0, 0xa6e7_0cfe, 0x1eb3_e7c1, 0xa479_9506, 0x7271_706f, 17, 0xffff_5bb1,
         0xca27_520b);
    Step(11, x, s, 0xa479_9506, 0xca27_520b, 0xa6e7_0cfe, 0x1eb3_e7c1, 0x7675_7473, 22, 0x895c_d7be,
         0x8a76_12ec);
    Step(12, x, s, 0x1eb3_e7c1, 0x8a76_12ec, 0xca27_520b, 0xa6e7_0cfe, 0x7a79_7877, 7, 0x6b90_1122,
         0x3cbd_cd45);
    Step(13, x, s, 0xa6e7_0cfe, 0x3cbd_cd45, 0x8a76_12ec, 0xca27_520b, 0x3332_3130, 12, 0xfd98_7193,
         0xb8de_c763);
    Step(14, x, s, 0xca27_520b, 0xb8de_c763, 0x3cbd_cd45, 0x8a76_12ec, 0x3736_3534, 17, 0xa679_438e,
         0xfa14_8c8a);
    Step(15, x, s, 0x8a76_12ec, 0xfa14_8c8a, 0xb8de_c763, 0x3cbd_cd45, 0x80_3938, 22, 0x49b4_0821,
         0x5d38_e690);
  }

  lemma Letter16(x: seq<uint32>, s: Abcd)
    requires LetterWords(x) && Reaches(16, x, s, 0x3cbd_cd45, 0x5d38_e690, 0xfa14_8c8a, 0xb8de_c763)
    ensures Reaches(24, x, s, 0x2d7d_8a3f, 0x7529_2030, 0x4b53_4dc3, 0xd121_0823)
  {
    hide Reaches, SINES, Nat32;
    Sines16();
    Step(16, x, s, 0x3cbd_cd45, 0x5d38_e690, 0xfa14_8c8a, 0xb8de_c763, 0x4847_4645, 5, 0xf61e_2562,
         0x4b9_d52a);
    Step(17, x, s, 0xb8de_c763, 0x4b9_d52a, 0x5d38_e690, 0xfa14_8c8a, 0x6261_5a59, 9, 0xc040_b340,
         0x7830_02eb);
    Step(18, x, s, 0xfa14_8c8a, 0x7830_02eb, 0x4b9_d52a, 0x5d38_e690, 0x7675_7473, 14, 0x265e_5a51,
         0xd3ee_3ed1);
    Step(19, x, s, 0x5d38_e690, 0xd3ee_3ed1, 0x7830_02eb, 0x4b9_d52a, 0x4443_4241, 20, 0xe9b6_c7aa,
         0x47ae_7c81);
    Step(20, x, s, 0x4b9_d52a, 0x47ae_7c81, 0xd3ee_3ed1, 0x7830_02eb, 0x5857_5655, 5, 0xd62f_105d,
         0x2d7d_8a3f);
    Step(21, x, s, 0x7830_02eb, 0x2d7d_8a3f, 0x47ae_7c81, 0xd3ee_3ed1, 0x7271_706f, 9, 0x244_1453,
         0xd121_0823);
    Step(22, x, s, 0xd3ee_3ed1, 0xd121_0823, 0x2d7d_8a3f, 0x47ae_7c81, 0x80_3938, 14, 0xd8a1_e681,
         0x4b53_4dc3);
    Step(23, x, s, 0x47ae_7c81, 0x4b53_4dc3, 0xd121_0823, 0x2d7d_8a3f, 0x5453_5251, 20, 0xe7d3_fbc8,
         0x7529_2030);
  }

  lemma Letter24(x: seq<uint32>, s: Abcd)
    requires LetterWords(x) && Reaches(24, x, s, 0x2d7d_8a3f, 0x7529_2030, 0x4b53_4dc3, 0xd121_0823)
    ensures Reaches(32, x, s, 0x9b08_5fa9, 0xdd78_9ecc, 0x5993_248f, 0x4400_a9bd)
  {
    hide Reaches, SINES, Nat32;
    Sines24();
    Step(24, x, s, 0x2d7d_8a3f, 0x7529_2030, 0x4b53_4dc3, 0xd121_0823, 0x6e6d_6c6b, 5, 0x21e1_cde6,
         0x9d2a_6e33);
    Step(25, x, s, 0xd121_0823, 0x9d2a_6e33, 0x7529_2030, 0x4b53_4dc3, 0x3736_3534, 9, 0xc337_07d6,
         0xe8d_2e44);
    Step(26, x, s, 0x4b53_4dc3, 0xe8d_2e44, 0x9d2a_6e33, 0x7529_2030, 0x504f_4e4d, 14, 0xf4d5_0d87,
         0xd473_b564);
    Step(27, x, s, 0x7529_2030, 0xd473_b564, 0xe8d_2e44, 0x9d2a_6e33, 0x6a69_6867, 20, 0x455a_14ed,
         0xf2ff_6ea0);
    Step(28, x, s, 0x9d2a_6e33, 0xf2ff_6ea0, 0xd473_b564, 0xe8d_2e44, 0x3332_3130, 5, 0xa9e3_e905,
         0x9b08_5fa9);
    Step(29, x, s, 0xe8d_2e44, 0x9b08_5fa9, 0xf2ff_6ea0, 0xd473_b564, 0x4c4b_4a49, 9, 0xfcef_a3f8,
         0x4400_a9bd);
    Step(30, x, s, 0xd473_b564, 0x4400_a9bd, 0x9b08_5fa9, 0xf2ff_6ea0, 0x6665_6463, 14, 0x676f_02d9,
         0x5993_248f);
    Step(31, x, s, 0xf2ff_6ea0, 0x5993_248f, 0x4400_a9bd, 0x9b08_5fa9, 0x7a79_7877, 20, 0x8d2a_4c8a,
         0xdd78_9ecc);
  }

  lemma Letter32(x: seq<uint32>, s: Abcd)
    requires LetterWords(x) && Reaches(32, x, s, 0x9b08_5fa9, 0xdd78_9ecc, 0x5993_248f, 0x4400_a9bd)
    ensures Reaches(40, x, s, 0x436b_7fe9, 0xcf03_41ed, 0xf404_c2f6, 0x758_00c1)
  {
    hide Reaches, SINES, Nat32;
    Sines32();
    Step(32, x, s, 0x9b08_5fa9, 0xdd78_9ecc, 0x5993_248f, 0x4400_a9bd, 0x5857_5655, 4, 0xfffa_3942,
         0x21c8_d2b7);
    Step(33, x, s, 0x4400_a9bd, 0x21c8_d2b7, 0xdd78_9ecc, 0x5993_248f, 0x6a69_6867, 11, 0x8771_f681,
         0x1d55_a18e);
    Step(34, x, s, 0x5993_248f, 0x1d55_a18e, 0x21c8_d2b7, 0xdd78_9ecc, 0x7675_7473, 16, 0x6d9d_6122,
         0x56e_c119);
    Step(35, x, s, 0xdd78_9ecc, 0x56e_c119, 0x1d55_a18e, 0x21c8_d2b7, 0x3736_3534, 23, 0xfde5_380c,
         0x1b95_04f8);
    Step(36, x, s, 0x21c8_d2b7, 0x1b95_04f8, 0x56e_c119, 0x1d55_a18e, 0x4847_4645, 4, 0xa4be_ea44,
         0x436b_7fe9);
    Step(37, x, s, 0x1d55_a18e, 0x436b_7fe9, 0x1b95_04f8, 0x56e_c119, 0x5453_5251, 11, 0x4bde_cfa9,
         0x758_00c1);
    Step(38, x, s, 0x56e_c119, 0x758_00c1, 0x436b_7fe9, 0x1b95_04f8, 0x6665_6463, 16, 0xf6bb_4b60,
         0xf404_c2f6);
    Step(39, x, s, 0x1b95_04f8, 0xf404_c2f6, 0x758_00c1, 0x436b_7fe9, 0x7271_706f, 23, 0xbebf_bc70,
         0xcf03_41ed);
  }

  lemma Letter40(x: seq<uint32>, s: Abcd)
    requires LetterWords(x) && Reaches(40, x, s, 0x436b_7fe9, 0xcf03_41ed, 0xf404_c2f6, 0x758_00c1)
    ensures Reaches(48, x, s, 0x2dbe_e21d, 0xf166_f514, 0xee46_e961, 0xe95c_3a43)
  {
    hide Reaches, SINES, Nat32;
    Sines40();
    Step(40, x, s, 0x436b_7fe9, 0xcf03_41ed, 0xf404_c2f6, 0x758_00c1, 0x3332_3130, 4, 0x289b_7ec6,
         0x888e_7d8a);
    Step(41, x, s, 0x758_00c1, 0x888e_7d8a, 0xcf03_41ed, 0xf404_c2f6, 0x4443_4241, 11, 0xeaa1_27fa,
         0xbbda_ecd8);
    Step(42, x, s, 0xf404_c2f6, 0xbbda_ecd8, 0x888e_7d8a, 0xcf03_41ed, 0x504f_4e4d, 16, 0xd4ef_3085,
         0xce62_0273);
    Step(43, x, s, 0xcf03_41ed, 0xce62_0273, 0xbbda_ecd8, 0x888e_7d8a, 0x6261_5a59, 23, 0x488_1d05,
         0x47b_9419);
    Step(44, x, s, 0x888e_7d8a, 0x47b_9419, 0xce62_0273, 0xbbda_ecd8, 0x6e6d_6c6b, 4, 0xd9d4_d039,
         0x2dbe_e21d);
    Step(45, x, s, 0xbbda_ecd8, 0x2dbe_e21d, 0x47b_9419, 0xce62_0273, 0x7a79_7877, 11, 0xe6db_99e5,
         0xe95c_3a43);
    Step(46, x, s, 0xce62_0273, 0xe95c_3a43, 0x2dbe_e21d, 0x47b_9419, 0x80_3938, 16, 0x1fa2_7cf8,
         0xee46_e961);
    Step(47, x, s, 0x47b_9419, 0xee46_e961, 0xe95c_3a43, 0x2dbe_e21d, 0x4c4b_4a49, 23, 0xc4ac_5665,
         0xf166_f514);
  }

  lemma Letter48(x: seq<uint32>, s: Abcd)
    requires LetterWords(x) && Reaches(48, x, s, 0x2dbe_e21d, 0xf166_f514, 0xee46_e961, 0xe95c_3a43)
    ensures Reaches(56, x, s, 0xa691_d430, 0xefb0_e72f, 0x3fc2_3df6, 0x5284_52f2)
  {
    hide Reaches, SINES, Nat32;
    Sines48();
    Step(48, x, s, 0x2dbe_e21d, 0xf166_f514, 0xee46_e961, 0xe95c_3a43, 0x4443_4241, 6, 0xf429_2244,
         0xe47f_d4f3);
    Step(49, x, s, 0xe95c_3a43, 0xe47f_d4f3, 0xf166_f514, 0xee46_e961, 0x6665_6463, 10, 0x432a_ff97,
         0xfb88_7751);
    Step(50, x, s, 0xee46_e961, 0xfb88_7751, 0xe47f_d4f3, 0xf166_f514, 0x3736_3534, 15, 0xab94_23a7,
         0xf22a_edcc);
    Step(51, x, s, 0xf166_f514, 0xf22a_edcc, 0xfb88_7751, 0xe47f_d4f3, 0x5857_5655, 21, 0xfc93_a039,
         0x7a13_bc5c);
    Step(52, x, s, 0xe47f_d4f3, 0x7a13_bc5c, 0xf22a_edcc, 0xfb88_7751, 0x7a79_7877, 6, 0x655b_59c3,
         0xa691_d430);
    Step(53, x, s, 0xfb88_7751, 0xa691_d430, 0x7a13_bc5c, 0xf22a_edcc, 0x504f_4e4d, 10, 0x8f0c_cc92,
         0x5284_52f2);
    Step(54, x, s, 0xf22a_edcc, 0x5284_52f2, 0xa691_d430, 0x7a13_bc5c, 0x7271_706f, 15, 0xffef_f47d,
         0x3fc2_3df6);
    Step(55, x, s, 0x7a13_bc5c, 0x3fc2_3df6, 0x5284_52f2, 0xa691_d430, 0x4847_4645, 21, 0x8584_5dd1,
         0xefb0_e72f);
  }

  lemma Letter56(x: seq<uint32>, s: Abcd)
    requires LetterWords(x) && Reaches(56, x, s, 0xa691_d430, 0xefb0_e72f, 0x3fc2_3df6, 0x5284_52f2)
    ensures Reaches(64, x, s, 0x1cb8_0f0a, 0xef2e_3a46, 0x10f6_8731, 0xea3d_3eb4)
  {
    hide Reaches, SINES, Nat32;
    Sines56();
    Step(56, x, s, 0xa691_d430, 0xefb0_e72f, 0x3fc2_3df6, 0x5284_52f2, 0x6a69_6867, 6, 0x6fa8_7e4f,
         0x2714_5703);
    Step(57, x, s, 0x5284_52f2, 0x2714_5703, 0xefb0_e72f, 0x3fc2_3df6, 0x80_3938, 10, 0xfe2c_e6e0,
         0x21a1_1069);
    Step(58, x, s, 0x3fc2_3df6, 0x21a1_1069, 0x2714_5703, 0xefb0_e72f, 0x6261_5a59, 15, 0xa301_4314,
         0x374f_be79);
    Step(59, x, s, 0xefb0_e72f, 0x374f_be79, 0x21a1_1069, 0x2714_5703, 0x3332_3130, 21, 0x4e08_11a1,
         0x49d9_a5b4);
    Step(60, x, s, 0x2714_5703, 0x49d9_a5b4, 0x374f_be79, 0x21a1_1069, 0x5453_5251, 6, 0xf753_7e82,
         0x1cb8_0f0a);
    Step(61, x, s, 0x21a1_1069, 0x1cb8_0f0a, 0x49d9_a5b4, 0x374f_be79, 0x7675_7473, 10, 0xbd3a_f235,
         0xea3d_3eb4);
    Step(62, x, s, 0x374f_be79, 0xea3d_3eb4, 0x1cb8_0f0a, 0x49d9_a5b4, 0x4c4b_4a49, 15, 0x2ad7_d2bb,
         0x10f6_8731);
    Step(63, x, s, 0x49d9_a5b4, 0x10f6_8731, 0xea3d_3eb4, 0x1cb8_0f0a, 0x6e6d_6c6b, 21, 0xeb86_d391,
         0xef2e_3a46);
  }

  lemma LetterCompresses(block: seq<byte>)
    requires |block| == 64 && LetterWords(BlockWords(block))
    ensures Reaches(64, BlockWords(block), Words(0x6745_2301, 0xefcd_ab89, 0x98ba_dcfe, 0x1032_5476),
                    0x1cb8_0f0a, 0xef2e_3a46, 0x10f6_8731, 0xea3d_3eb4)
  {
    var x, s := BlockWords(block), Words(0x6745_2301, 0xefcd_ab89, 0x98ba_dcfe, 0x1032_5476);
    assert |x| == 16;
    hide Reaches, Nat32, BlockWords, LetterWords;
    NoSteps(x, 0x6745_2301, 0xefcd_ab89, 0x98ba_dcfe, 0x1032_5476);
    Letter0(x, s);
    Letter8(x, s);
    Letter16(x, s);
    Letter24(x, s);
    Letter32(x, s);
    Letter40(x, s);
    Letter48(x, s);
    Letter56(x, s);
  }

  lemma Length0(x: seq<uint32>, s: Abcd)
    requires LengthWords(x) && Reaches(0, x, s, 0x83fd_320b, 0xdefb_e5cf, 0xa9b1_642f, 0xfa6f_932a)
    ensures Reaches(8, x, s, 0x7514_4433, 0x99b6_b699, 0xc783_cb60, 0xc887_5807)
  {
    hide Reaches, SINES, Nat32;
    Sines0();
    Step(0, x, s, 0x83fd_320b, 0xdefb_e5cf, 0xa9b1_642f, 0xfa6f_932a, 0x0, 7, 0xd76a_a478,
         0xeda2_3ed1);
    Step(1, x, s, 0xfa6f_932a, 0xeda2_3ed1, 0xdefb_e5cf, 0xa9b1_642f, 0x0, 12, 0xe8c7_b756,
         0x9899_39cf);
    Step(2, x, s, 0xa9b1_642f, 0x9899_39cf, 0xeda2_3ed1, 0xdefb_e5cf, 0x0, 17, 0x2420_70db,
         0x3c30_7338);
    Step(3, x, s, 0xdefb_e5cf, 0x3c30_7338, 0x9899_39cf, 0xeda2_3ed1, 0x0, 22, 0xc1bd_ceee,
         0xddcf_0634);
    Step(4, x, s, 0xeda2_3ed1, 0xddcf_0634, 0x3c30_7338, 0x9899_39cf, 0x0, 7, 0xf57c_0faf,
         0x7514_4433);
    Step(5, x, s, 0x9899_39cf, 0x7514_4433, 0xddcf_0634, 0x3c30_7338, 0x0, 12, 0x4787_c62a,
         0xc887_5807);
    Step(6, x, s, 0x3c30_7338, 0xc887_5807, 0x7514_4433, 0xddcf_0634, 0x0, 17, 0xa830_4613,
         0xc783_cb60);
    Step(7, x, s, 0xddcf_0634, 0xc783_cb60, 0xc887_5807, 0x7514_4433, 0x0, 22, 0xfd46_9501,
         0x99b6_b699);
  }

  lemma Length8(x: seq<uint32>, s: Abcd)
    requires LengthWords(x) && Reaches(8, x, s, 0x7514_4433, 0x99b6_b699, 0xc783_cb60, 0xc887_5807)
    ensures Reaches(16, x, s, 0xa707_37da, 0xa36f_556f, 0x96f6_586e, 0x5473_f8a7)
  {
    hide Reaches, SINES, Nat32;
    Sines8();
    Step(8, x, s, 0x7514_4433, 0x99b6_b699, 0xc783_cb60, 0xc887_5807, 0x0, 7, 0x6980_98d8,
         0xa60a_3f69);
    Step(9, x, s, 0xc887_5807, 0xa60a_3f69, 0x99b6_b699, 0xc783_cb60, 0x0, 12, 0x8b44_f7af,
         0xaa66_30be);
    Step(10, x, s, 0xc783_cb60, 0xaa66_30be, 0xa60a_3f69, 0x99b6_b699, 0x0, 17, 0xffff_5bb1,
         0x64db_26e9);
    Step(11, x, s, 0x99b6_b699, 0x64db_26e9, 0xaa66_30be, 0xa60a_3f69, 0x0, 22, 0x895c_d7be,
         0x64cc_7c5a);
    Step(12, x, s, 0xa60a_3f69, 0x64cc_7c5a, 0x64db_26e9, 0xaa66_30be, 0x0, 7, 0x6b90_1122,
         0xa707_37da);
    Step(13, x, s, 0xaa66_30be, 0xa707_37da, 0x64cc_7c5a, 0x64db_26e9, 0x0, 12, 0xfd98_7193,
         0x5473_f8a7);
    Step(14, x, s, 0x64db_26e9, 0x5473_f8a7, 0xa707_37da, 0x64cc_7c5a, 0x1f0, 17, 0xa679_438e,
         0x96f6_586e);
    Step(15, x, s, 0x64cc_7c5a, 0x96f6_586e, 0x5473_f8a7, 0xa707_37da, 0x0, 22, 0x49b4_0821,
         0xa36f_556f);
  }

  lemma Length16(x: seq<uint32>, s: Abcd)
    requires LengthWords(x) && Reaches(16, x, s, 0xa707_37da, 0xa36f_556f, 0x96f6_586e, 0x5473_f8a7)
    ensures Reaches(24, x, s, 0xe04f_070c, 0xdf35_cb56, 0xc0d2_2b61, 0x2f3c_d2a2)
  {
    hide Reaches, SINES, Nat32;
    Sines16();
    Step(16, x, s, 0xa707_37da, 0xa36f_556f, 0x96f6_586e, 0x5473_f8a7, 0x0, 5, 0xf61e_2562,
         0xa505_0ad3);
    Step(17, x, s, 0x5473_f8a7, 0xa505_0ad3, 0xa36f_556f, 0x96f6_586e, 0x0, 9, 0xc040_b340,
         0x2877_6046);
    Step(18, x, s, 0x96f6_586e, 0x2877_6046, 0xa505_0ad3, 0xa36f_556f, 0x0, 14, 0x265e_5a51,
         0x27dc_d8b4);
    Step(19, x, s, 0xa36f_556f, 0x27dc_d8b4, 0x2877_6046, 0xa505_0ad3, 0x0, 20, 0xe9b6_c7aa,
         0x82b8_827c);
    Step(20, x, s, 0xa505_0ad3, 0x82b8_827c, 0x27dc_d8b4, 0x2877_6046, 0x0, 5, 0xd62f_105d,
         0xe04f_070c);
    Step(21, x, s, 0x2877_6046, 0xe04f_070c, 0x82b8_827c, 0x27dc_d8b4, 0x0, 9, 0x244_1453,
         0x2f3c_d2a2);
    Step(22, x, s, 0x27dc_d8b4, 0x2f3c_d2a2, 0xe04f_070c, 0x82b8_827c, 0x0, 14, 0xd8a1_e681,
         0xc0d2_2b61);
    Step(23, x, s, 0x82b8_827c, 0xc0d2_2b61, 0x2f3c_d2a2, 0xe04f_070c, 0x0, 20, 0xe7d3_fbc8,
         0xdf35_cb56);
  }

  lemma Length24(x: seq<uint32>, s: Abcd)
    requires LengthWords(x) && Reaches(24, x, s, 0xe04f_070c, 0xdf35_cb56, 0xc0d2_2b61, 0x2f3c_d2a2)
    ensures Reaches(32, x, s, 0x24eb_a695, 0x9c03_e2e8, 0x10c4_2a2f, 0x4bd0_378b)
  {
    hide Reaches, SINES, Nat32;
    Sines24();
    Step(24, x, s, 0xe04f_070c, 0xdf35_cb56, 0xc0d2_2b61, 0x2f3c_d2a2, 0x0, 5, 0x21e1_cde6,
         0x242d_d210);
    Step(25, x, s, 0x2f3c_d2a2, 0x242d_d210, 0xdf35_cb56, 0xc0d2_2b61, 0x1f0, 9, 0xc337_07d6,
         0x576a_ce33);
    Step(26, x, s, 0xc0d2_2b61, 0x576a_ce33, 0x242d_d210, 0xdf35_cb56, 0x0, 14, 0xf4d5_0d87,
         0x5c29_5967);
    Step(27, x, s, 0xdf35_cb56, 0x5c29_5967, 0x576a_ce33, 0x242d_d210, 0x0, 20, 0x455a_14ed,
         0x2291_191a);
    Step(28, x, s, 0x242d_d210, 0x2291_191a, 0x5c29_5967, 0x576a_ce33, 0x0, 5, 0xa9e3_e905,
         0x24eb_a695);
    Step(29, x, s, 0x576a_ce33, 0x24eb_a695, 0x2291_191a, 0x5c29_5967, 0x0, 9, 0xfcef_a3f8,
         0x4bd0_378b);
    Step(30, x, s, 0x5c29_5967, 0x4bd0_378b, 0x24eb_a695, 0x2291_191a, 0x0, 14, 0x676f_02d9,
         0x10c4_2a2f);
    Step(31, x, s, 0x2291_191a, 0x10c4_2a2f, 0x4bd0_378b, 0x24eb_a695, 0x0, 20, 0x8d2a_4c8a,
         0x9c03_e2e8);
  }

  lemma Length32(x: seq<uint32>, s: Abcd)
    requires LengthWords(x) && Reaches(32, x, s, 0x24eb_a695, 0x9c03_e2e8, 0x10c4_2a2f, 0x4bd0_378b)
    ensures Reaches(40, x, s, 0xe14e_403d, 0xfe31_4121, 0x60cc_183a, 0xe8cf_d670)
  {
    hide Reaches, SINES, Nat32;
    Sines32();
    Step(32, x, s, 0x24eb_a695, 0x9c03_e2e8, 0x10c4_2a2f, 0x4bd0_378b, 0x0, 4, 0xfffa_3942,
         0x5be1_d526);
    Step(33, x, s, 0x4bd0_378b, 0x5be1_d526, 0x9c03_e2e8, 0x10c4_2a2f, 0x0, 11, 0x8771_f681,
         0x9e41_4279);
    Step(34, x, s, 0x10c4_2a2f, 0x9e41_4279, 0x5be1_d526, 0x9c03_e2e8, 0x0, 16, 0x6d9d_6122,
         0x9f4a_1a7e);
    Step(35, x, s, 0x9c03_e2e8, 0x9f4a_1a7e, 0x9e41_4279, 0x5be1_d526, 0x1f0, 23, 0xfde5_380c,
         0xa244_8453);
    Step(36, x, s, 0x5be1_d526, 0xa244_8453, 0x9f4a_1a7e, 0x9e41_4279, 0x0, 4, 0xa4be_ea44,
         0xe14e_403d);
    Step(37, x, s, 0x9e41_4279, 0xe14e_403d, 0xa244_8453, 0x9f4a_1a7e, 0x0, 11, 0x4bde_cfa9,
         0xe8cf_d670);
    Step(38, x, s, 0x9f4a_1a7e, 0xe8cf_d670, 0xe14e_403d, 0xa244_8453, 0x0, 16, 0xf6bb_4b60,
         0x60cc_183a);
    Step(39, x, s, 0xa244_8453, 0x60cc_183a, 0xe8cf_d670, 0xe14e_403d, 0x0, 23, 0xbebf_bc70,
         0xfe31_4121);
  }

  lemma Length40(x: seq<uint32>, s: Abcd)
    requires LengthWords(x) && Reaches(40, x, s, 0xe14e_403d, 0xfe31_4121, 0x60cc_183a, 0xe8cf_d670)
    ensures Reaches(48, x, s, 0x54c9_eb3a, 0x79c0_710a, 0x2ec8_6f72, 0xd4d9_c6ac)
  {
    hide Reaches, SINES, Nat32;
    Sines40();
    Step(40, x, s, 0xe14e_403d, 0xfe31_4121, 0x60cc_183a, 0xe8cf_d670, 0x0, 4, 0x289b_7ec6,
         0xfff6_2809);
    Step(41, x, s, 0xe8cf_d670, 0xfff6_2809, 0xfe31_4121, 0x60cc_183a, 0x0, 11, 0xeaa1_27fa,
         0xe372_09ac);
    Step(42, x, s, 0x60cc_183a, 0xe372_09ac, 0xfff6_2809, 0xfe31_4121, 0x0, 16, 0xd4ef_3085,
         0x8cb5_221c);
    Step(43, x, s, 0xfe31_4121, 0x8cb5_221c, 0xe372_09ac, 0xfff6_2809, 0x0, 23, 0x488_1d05,
         0x7c7e_974c);
    Step(44, x, s, 0xfff6_2809, 0x7c7e_974c, 0x8cb5_221c, 0xe372_09ac, 0x0, 4, 0xd9d4_d039,
         0x54c9_eb3a);
    Step(45, x, s, 0xe372_09ac, 0x54c9_eb3a, 0x7c7e_974c, 0x8cb5_221c, 0x0, 11, 0xe6db_99e5,
         0xd4d9_c6ac);
    Step(46, x, s, 0x8cb5_221c, 0xd4d9_c6ac, 0x54c9_eb3a, 0x7c7e_974c, 0x0, 16, 0x1fa2_7cf8,
         0x2ec8_6f72);
    Step(47, x, s, 0x7c7e_974c, 0x2ec8_6f72, 0xd4d9_c6ac, 0x54c9_eb3a, 0x0, 23, 0xc4ac_5665,
         0x79c0_710a);
  }

  lemma Length48(x: seq<uint32>, s: Abcd)
    requires LengthWords(x) && Reaches(48, x, s, 0x54c9_eb3a, 0x79c0_710a, 0x2ec8_6f72, 0xd4d9_c6ac)
    ensures Reaches(56, x, s, 0xe126_c1aa, 0xfb7b_cee0, 0x6f28_7ff5, 0x96b0_0fa7)
  {
    hide Reaches, SINES, Nat32;
    Sines48();
    Step(48, x, s, 0x54c9_eb3a, 0x79c0_710a, 0x2ec8_6f72, 0xd4d9_c6ac, 0x0, 6, 0xf429_2244,
         0x209_5af1);
    Step(49, x, s, 0xd4d9_c6ac, 0x209_5af1, 0x79c0_710a, 0x2ec8_6f72, 0x0, 10, 0x432a_ff97,
         0x13d2_45fd);
    Step(50, x, s, 0x2ec8_6f72, 0x13d2_45fd, 0x209_5af1, 0x79c0_710a, 0x1f0, 15, 0xab94_23a7,
         0xa8dc_fe26);
    Step(51, x, s, 0x79c0_710a, 0xa8dc_fe26, 0x13d2_45fd, 0x209_5af1, 0x0, 21, 0xfc93_a039,
         0x2ba9_8e3f);
    Step(52, x, s, 0x209_5af1, 0x2ba9_8e3f, 0xa8dc_fe26, 0x13d2_45fd, 0x0, 6, 0x655b_59c3,
         0xe126_c1aa);
    Step(53, x, s, 0x13d2_45fd, 0xe126_c1aa, 0x2ba9_8e3f, 0xa8dc_fe26, 0x0, 10, 0x8f0c_cc92,
         0x96b0_0fa7);
    Step(54, x, s, 0xa8dc_fe26, 0x96b0_0fa7, 0xe126_c1aa, 0x2ba9_8e3f, 0x0, 15, 0xffef_f47d,
         0x6f28_7ff5);
    Step(55, x, s, 0x2ba9_8e3f, 0x6f28_7ff5, 0x96b0_0fa7, 0xe126_c1aa, 0x0, 21, 0x8584_5dd1,
         0xfb7b_cee0);
  }

  lemma Length56(x: seq<uint32>, s: Abcd)
    requires LengthWords(x) && Reaches(56, x, s, 0xe126_c1aa, 0xfb7b_cee0, 0x6f28_7ff5, 0x96b0_0fa7)
    ensures Reaches(64, x, s, 0x14ae_42c6, 0x16dd_9203, 0x826a_fd76, 0xa52d_ae75)
  {
    hide Reaches, SINES, Nat32;
    Sines56();
    Step(56, x, s, 0xe126_c1aa, 0xfb7b_cee0, 0x6f28_7ff5, 0x96b0_0fa7, 0x0, 6, 0x6fa8_7e4f,
         0x452c_1099);
    Step(57, x, s, 0x96b0_0fa7, 0x452c_1099, 0xfb7b_cee0, 0x6f28_7ff5, 0x0, 10, 0xfe2c_e6e0,
         0xca80_1ba6);
    Step(58, x, s, 0x6f28_7ff5, 0xca80_1ba6, 0x452c_1099, 0xfb7b_cee0, 0x0, 15, 0xa301_4314,
         0xc197_ea8e);
    Step(59, x, s, 0xfb7b_cee0, 0xc197_ea8e, 0xca80_1ba6, 0x452c_1099, 0x0, 21, 0x4e08_11a1,
         0x5ac7_4608);
    Step(60, x, s, 0x452c_1099, 0x5ac7_4608, 0xc197_ea8e, 0xca80_1ba6, 0x0, 6, 0xf753_7e82,
         0x14ae_42c6);
    Step(61, x, s, 0xca80_1ba6, 0x14ae_42c6, 0x5ac7_4608, 0xc197_ea8e, 0x0, 10, 0xbd3a_f235,
         0xa52d_ae75);
    Step(62, x, s, 0xc197_ea8e, 0xa52d_ae75, 0x14ae_42c6, 0x5ac7_4608, 0x0, 15, 0x2ad7_d2bb,
         0x826a_fd76);
    Step(63, x, s, 0x5ac7_4608, 0x826a_fd76, 0xa52d_ae75, 0x14ae_42c6, 0x0, 21, 0xeb86_d391,
         0x16dd_9203);
  }

  lemma LengthCompresses(block: seq<byte>)
    requires |block| == 64 && LengthWords(BlockWords(block))
    ensures Reaches(64, BlockWords(block), Words(0x83fd_320b, 0xdefb_e5cf, 0xa9b1_642f, 0xfa6f_932a),
                    0x14ae_42c6, 0x16dd_9203, 0x826a_fd76, 0xa52d_ae75)
  {
    var x, s := BlockWords(block), Words(0x83fd_320b, 0xdefb_e5cf, 0xa9b1_642f, 0xfa6f_932a);
    assert |x| == 16;
    hide Reaches, Nat32, BlockWords, LengthWords;
    NoSteps(x, 0x83fd_320b, 0xdefb_e5cf, 0xa9b1_642f, 0xfa6f_932a);
    Length0(x, s);
    Length8(x, s);
    Length16(x, s);
    Length24(x, s);
    Length32(x, s);
    Length40(x, s);
    Length48(x, s);
    Length56(x, s);
  }

  lemma AlphabetsPadded(message: seq<byte>)
    requires |message| == 62 && forall i :: 0 <= i < 62 ==> message[i] == Code(i)
    ensures |Pad(message)| == 128 && LetterBlock(Pad(message)[..64]) && LengthBlock(Pad(message)[64..])
  {
    LengthBytes();
    assert Padding(62) == [0x80] + Zeros(57) + [0xf0, 1, 0, 0, 0, 0, 0, 0];
    hide LittleBytes;
    var p := Pad(message);
    assert p[62] == 0x80 && p[63] == 0;
  }

  lemma LengthBytes()
    ensures LittleBytes(496, 8) == [0xf0, 1, 0, 0, 0, 0, 0, 0]
  {
    assert LittleBytes(0, 6) == Zeros(6) by { ZeroBytes(6); }
    assert LittleBytes(1, 7) == [1] + LittleBytes(0, 6);
  }

  lemma DigestOfBlocks(message: seq<byte>)
    requires |Pad(message)| == 128 && LetterBlock(Pad(message)[..64]) && LengthBlock(Pad(message)[64..])
    ensures Digest(message) == [0xd1, 0x74, 0xab, 0x98, 0xd2, 0x77, 0xd9, 0xf5,
                           0xa5, 0x61, 0x1c, 0x2c, 0x9f, 0x41, 0x9d, 0x9f]
  {
    hide Pad, Nat32, Nat8, Byte, CompressAll, Compress, Reaches, BlockWords;
    hide LetterBlock, LengthBlock, LetterWords, LengthWords;
    var p := Pad(message);
    InitialIs();
    assert p == p[..64] + p[64..];
    CompressAllSplit(INITIAL, p[..64], p[64..]);
    OneBlock(INITIAL, p[..64]);
    LetterBlockWords(p[..64]);
    LetterCompresses(p[..64]);
    CompressIs(p[..64], 0x6745_2301, 0xefcd_ab89, 0x98ba_dcfe, 0x1032_5476,
               0x1cb8_0f0a, 0xef2e_3a46, 0x10f6_8731, 0xea3d_3eb4);
    OneBlock(Words(0x83fd_320b, 0xdefb_e5cf, 0xa9b1_642f, 0xfa6f_932a), p[64..]);
    LengthBlockWords(p[64..]);
    LengthCompresses(p[64..]);
    CompressIs(p[64..], 0x83fd_320b, 0xdefb_e5cf, 0xa9b1_642f, 0xfa6f_932a,
               0x14ae_42c6, 0x16dd_9203, 0x826a_fd76, 0xa52d_ae75);
    AlphabetBytes();
  }

  lemma AlphabetBytes()
    ensures StateBytes(Words(0x98ab_74d1, 0xf5d9_77d2, 0x2c1c_61a5, 0x9f9d_419f)) ==
      [0xd1, 0x74, 0xab, 0x98, 0xd2, 0x77, 0xd9, 0xf5,
                           0xa5, 0x61, 0x1c, 0x2c, 0x9f, 0x41, 0x9d, 0x9f]
  {
    hide StateBytes;
    StateBytesAre(0x98ab_74d1, 0xf5d9_77d2, 0x2c1c_61a5, 0x9f9d_419f);
  }

  /** MD5 of the letters and digits, whose two blocks use sixteen different words. */
  lemma DigestOfAlphabets()
    ensures |ALPHABETS| == 62 && forall i :: 0 <= i < 62 ==> ALPHABETS[i] < '\U{80}'
    ensures Digest(Ascii(ALPHABETS)) == [0xd1, 0x74, 0xab, 0x98, 0xd2, 0x77, 0xd9, 0xf5,
                           0xa5, 0x61, 0x1c, 0x2c, 0x9f, 0x41, 0x9d, 0x9f]
  {
    AlphabetsAreAscii();
    hide ALPHABETS;
    AlphabetsPadded(Ascii(ALPHABETS));
    DigestOfBlocks(Ascii(ALPHABETS));
  }
}
