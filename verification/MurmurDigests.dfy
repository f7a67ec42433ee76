/** A known digest of MurmurHash3: a key with its published 128-bit digest, worked out from the definition. */
module MurmurDigests {
  import opened JsNumber
  import opened X64
  import opened Murmur
  import opened MurmurCollisions
  import opened BitVectors

  // ---------------------------------------------------------------- the operations on known words

  lemma RotlIs(a: uint64, n: nat, p: nat, q: nat)
    requires n <= 64 && Pow2(n) == p && Pow2(64 - n) == q
    ensures Rotl64(a, n) == a % q * p + a / q
  {
    hide Low, High;
    LowIs(a, 64 - n, q);
  }

  lemma Powers()
    ensures Pow2(27) == 0x800_0000 && Pow2(31) == 0x8000_0000 && Pow2(33) == 0x2_0000_0000
    ensures Pow2(37) == 0x20_0000_0000
  {
    Pow2Values();
    assert Pow2(25) == 2 * Pow2(24) && Pow2(26) == 2 * Pow2(25);
    assert Pow2(29) == 2 * Pow2(28) && Pow2(30) == 2 * Pow2(29);
    Pow2Add(4, 33);
  }

  // The first word of a block: x, y and m are what the two products and the rotation give.
  lemma Mix1Is(k: uint64, x: uint64, y: uint64, m: uint64)
    requires k * C1 % 0x1_0000_0000_0000_0000 == x && y * C2 % 0x1_0000_0000_0000_0000 == m
    requires x % 0x2_0000_0000 * 0x8000_0000 + x / 0x2_0000_0000 == y
    ensures Mix1(k) == m
  {
    hide Rotl64, Pow2;
    Powers();
    RotlIs(x, 31, 0x8000_0000, 0x2_0000_0000);
  }

  lemma Mix2Is(k: uint64, x: uint64, y: uint64, m: uint64)
    requires k * C2 % 0x1_0000_0000_0000_0000 == x && y * C1 % 0x1_0000_0000_0000_0000 == m
    requires x % 0x8000_0000 * 0x2_0000_0000 + x / 0x8000_0000 == y
    ensures Mix2(k) == m
  {
    hide Rotl64, Pow2;
    Powers();
    RotlIs(x, 33, 0x2_0000_0000, 0x8000_0000);
  }

  lemma Stir1Is(h1: uint64, h2: uint64, k: uint64, x: uint64, y: uint64, r: uint64)
    requires Xor64(h1, Mix1(k)) == x && x % 0x20_0000_0000 * 0x800_0000 + x / 0x20_0000_0000 == y
    requires ((y + h2) * 5 + 0x52dc_e729) % 0x1_0000_0000_0000_0000 == r
    ensures Stir1(h1, h2, k) == r
  {
    hide Rotl64, Pow2, Mix1, Xor64;
    Powers();
    RotlIs(x, 27, 0x800_0000, 0x20_0000_0000);
    Reduced(y + h2, 0x52dc_e729);
  }

  lemma Stir2Is(h2: uint64, h1: uint64, k: uint64, x: uint64, y: uint64, r: uint64)
    requires Xor64(h2, Mix2(k)) == x && x % 0x2_0000_0000 * 0x8000_0000 + x / 0x2_0000_0000 == y
    requires ((y + h1) * 5 + 0x3849_5ab5) % 0x1_0000_0000_0000_0000 == r
    ensures Stir2(h2, h1, k) == r
  {
    hide Rotl64, Pow2, Mix2, Xor64;
    Powers();
    RotlIs(x, 31, 0x8000_0000, 0x2_0000_0000);
    Reduced(y + h1, 0x3849_5ab5);
  }

  lemma Reduced(x: nat, c: nat)
    requires c < 0x1_0000_0000_0000_0000
    ensures var m := 0x1_0000_0000_0000_0000; (x % m * 5 % m + c) % m == (x * 5 + c) % m
  {
    var m := 0x1_0000_0000_0000_0000;
    var r := x % m;
    var t := r * 5 % m;
    ModUnique(x * 5 + c, m, x / m * 5 + r * 5 / m + (t + c) / m, (t + c) % m);
  }

  lemma XorShift33Is(h: uint64, r: uint64)
    requires Xor64(h, h / 0x2_0000_0000) == r
    ensures XorShift33(h) == r
  {
    hide Xor64;
    Powers();
    LowIs(h, 33, 0x2_0000_0000);
  }

  lemma FmixIs(h: uint64, a: uint64, b: uint64, c: uint64, d: uint64, r: uint64)
    requires XorShift33(h) == a && a * F1 % 0x1_0000_0000_0000_0000 == b
    requires XorShift33(b) == c && c * F2 % 0x1_0000_0000_0000_0000 == d
    requires XorShift33(d) == r
    ensures Fmix(h) == r
  {
    hide XorShift33;
  }

  // ---------------------------------------------------------------- the keys

  // The code units of a text; those used here are ASCII.
  function Units(text: string): (u: seq<CodeUnit>)
    ensures |u| == |text| && forall i :: 0 <= i < |u| ==> u[i] == text[i] as int % 0x1_0000
  {
    seq(|text|, i requires 0 <= i < |text| => text[i] as int % 0x1_0000)
  }

  lemma UnitsJoin(s: string, t: string)
    ensures Units(s + t) == Units(s) + Units(t)
  {
  }

  // Eight byte characters as a number.
  lemma FourBytesAre(s: seq<int>)
    requires |s| == 4 && forall i :: 0 <= i < 4 ==> 0 <= s[i] < 256
    ensures LittleEndian(s) == ((s[3] * 0x100 + s[2]) * 0x100 + s[1]) * 0x100 + s[0]
  {
    FourBytes(s);
    forall i | 0 <= i < 4 ensures s[i] % 256 == s[i] {
    }
  }

  lemma LoadIs(s: seq<int>)
    requires |s| == 8 && forall i :: 0 <= i < 8 ==> 0 <= s[i] < 256
    ensures Load(s) == (((s[7] * 0x100 + s[6]) * 0x100 + s[5]) * 0x100 + s[4]) * 0x1_0000_0000
      + ((s[3] * 0x100 + s[2]) * 0x100 + s[1]) * 0x100 + s[0]
  {
    hide LittleEndian;
    FourBytesAre(s[..4]);
    FourBytesAre(s[4..]);
    assert Pow2(32) == 0x1_0000_0000 by { Pow2Values(); }
    assert s == s[..4] + s[4..];
    LittleEndianAppend(s[..4], s[4..]);
  }

  // A block off the front of a key.
  lemma BlockFirst(s: State, a: seq<CodeUnit>, b: seq<CodeUnit>, rest: seq<CodeUnit>)
    requires |a| == |b| == 8
    ensures Blocks(s, a + b + rest) == Blocks(Block(s, Load(a), Load(b)), rest)
  {
    hide Block, Load;
    var key := a + b + rest;
    assert key[..16][..8] == a && key[..16][8..] == b && key[16..] == rest;
  }

  // A short tail is padded with zeros.
  lemma TailWordIs(s: seq<CodeUnit>, zeros: seq<int>)
    requires |s| + |zeros| == 8 && IsBytes(s) && forall i :: 0 <= i < |zeros| ==> zeros[i] == 0
    ensures TailWord(s, 0) == Load(s + zeros)
  {
    hide LittleEndian, TailWord;
    TailIsLoad(s, 0);
    assert s[0..] == s;
    LittleEndianAppend(s, zeros);
    LittleEndianOfZeros(zeros);
  }

  lemma {:induction false} LittleEndianOfZeros(zeros: seq<int>)
    requires forall i :: 0 <= i < |zeros| ==> zeros[i] == 0
    ensures LittleEndian(zeros) == 0
  {
    if zeros != [] { LittleEndianOfZeros(zeros[1..]); }
  }

  // ---------------------------------------------------------------- the digest

  lemma Digits16()
    ensures HexDigit(0) == '0' && HexDigit(1) == '1' && HexDigit(2) == '2' && HexDigit(3) == '3'
    ensures HexDigit(4) == '4' && HexDigit(5) == '5' && HexDigit(6) == '6' && HexDigit(7) == '7'
    ensures HexDigit(8) == '8' && HexDigit(9) == '9' && HexDigit(10) == 'a' && HexDigit(11) == 'b'
    ensures HexDigit(12) == 'c' && HexDigit(13) == 'd' && HexDigit(14) == 'e' && HexDigit(15) == 'f'
  {
  }

  function LastFour(x: nat): string
  {
    [HexDigit(x / 0x1000 % 16), HexDigit(x / 0x100 % 16), HexDigit(x / 0x10 % 16), HexDigit(x % 16)]
  }

  lemma FourDigits(x: nat)
    requires x >= 0x1000
    ensures ToString16(x) == (if x < 0x1_0000 then "" else ToString16(x / 0x1_0000)) + LastFour(x)
  {
    hide HexDigit;
    var a, b, c := x / 0x10, x / 0x100, x / 0x1000;
    assert a / 0x10 == b && b / 0x10 == c && c / 0x10 == x / 0x1_0000;
    assert ToString16(x) == ToString16(a) + [HexDigit(x % 16)];
    assert ToString16(a) == ToString16(b) + [HexDigit(a % 16)];
    assert ToString16(b) == ToString16(c) + [HexDigit(b % 16)];
    assert ToString16(c) == (if c < 16 then "" else ToString16(c / 0x10)) + [HexDigit(c % 16)];
  }

  lemma EightDigits(x: uint32)
    requires x >= 0x1000_0000
    ensures HexWord(x) == LastFour(x / 0x1_0000) + LastFour(x)
  {
    hide LastFour, ToString16;
    FourDigits(x);
    FourDigits(x / 0x1_0000);
    assert |LastFour(x)| == |LastFour(x / 0x1_0000)| == 4 by { FourLong(x); FourLong(x / 0x1_0000); }
  }

  lemma FourLong(x: nat)
    ensures |LastFour(x)| == 4
  {
  }

  lemma HexWordIs(x: uint32, t: string)
    requires x >= 0x1000_0000 && |t| == 8
    requires t[0] == HexDigit(x / 0x1000_0000) && t[1] == HexDigit(x / 0x100_0000 % 16)
    requires t[2] == HexDigit(x / 0x10_0000 % 16) && t[3] == HexDigit(x / 0x1_0000 % 16)
    requires t[4] == HexDigit(x / 0x1000 % 16) && t[5] == HexDigit(x / 0x100 % 16)
    requires t[6] == HexDigit(x / 0x10 % 16) && t[7] == HexDigit(x % 16)
    ensures HexWord(x) == t
  {
    hide HexWord, HexDigit;
    EightDigits(x);
    var y := x / 0x1_0000;
    assert y / 0x1000 == x / 0x1000_0000 < 16 && y / 0x100 == x / 0x100_0000 && y / 0x10 == x / 0x10_0000;
    assert LastFour(y) == t[..4] && LastFour(x) == t[4..];
  }

  // ---------------------------------------------------------------- two blocks, a tail and a seed

  lemma FoxBlock1Mix1()
    ensures Mix1(0x6369_7571_2065_6854) == 0xede9_38f3_5bfb_b35d
  {
    hide Mix1;
    Mix1Is(0x6369_7571_2065_6854, 0x88af_ee47_4edb_09e4, 0xa76d_84f2_4457_f723, 0xede9_38f3_5bfb_b35d);
  }

  lemma FoxBlock1Left()
    ensures Xor64(0x9747_b28c, Mix1(0x6369_7571_2065_6854)) == 0xede9_38f3_ccbc_01d1
  {
    hide Xor64, Mix1;
    FoxBlock1Mix1();
    PairsMean(0x9747_b28c, 0xede9_38f3_5bfb_b35d);
  }

  lemma FoxBlock1Mix2()
    ensures Mix2(0x206e_776f_7262_206b) == 0x9b19_a81a_60aa_0b18
  {
    hide Mix2;
    Mix2Is(0x206e_776f_7262_206b, 0xbad6_d15c_2122_8615, 0x4245_0c2b_75ad_a2b8, 0x9b19_a81a_60aa_0b18);
  }

  lemma FoxBlock1Right()
    ensures Xor64(0x9747_b28c, Mix2(0x206e_776f_7262_206b)) == 0x9b19_a81a_f7ed_b994
  {
    hide Xor64, Mix2;
    FoxBlock1Mix2();
    PairsMean(0x9747_b28c, 0x9b19_a81a_60aa_0b18);
  }

  lemma FoxBlock1First()
    ensures Stir1(0x9747_b28c, 0x9747_b28c, 0x6369_7571_2065_6854) == 0x17fd_604c_146f_d4c8
  {
    hide Xor64, Mix1, Stir1;
    FoxBlock1Left();
    Stir1Is(0x9747_b28c, 0x9747_b28c, 0x6369_7571_2065_6854, 0xede9_38f3_ccbc_01d1, 0x9e65_e00e_8f6f_49c7,
            0x17fd_604c_146f_d4c8);
  }

  lemma FoxBlock1Second()
    ensures Stir2(0x9747_b28c, 0x17fd_604c_146f_d4c8, 0x206e_776f_7262_206b) == 0xe3c5_3170_2238_a6de
  {
    hide Xor64, Mix2, Stir2;
    FoxBlock1Right();
    Stir2Is(0x9747_b28c, 0x17fd_604c_146f_d4c8, 0x206e_776f_7262_206b, 0x9b19_a81a_f7ed_b994,
            0x7bf6_dcca_4d8c_d40d, 0xe3c5_3170_2238_a6de);
  }

  lemma FoxBlock1()
    ensures Block(State(0x9747_b28c, 0x9747_b28c), 0x6369_7571_2065_6854, 0x206e_776f_7262_206b)
      == State(0x17fd_604c_146f_d4c8, 0xe3c5_3170_2238_a6de)
  {
    hide Stir1, Stir2;
    FoxBlock1First();
    FoxBlock1Second();
  }

  lemma FoxBlock2Mix1()
    ensures Mix1(0x706d_756a_2078_6f66) == 0x82e3_20fa_65ae_eb7a
  {
    hide Mix1;
    Mix1Is(0x706d_756a_2078_6f66, 0x4017_930c_8e9e_c1de, 0x474f_60ef_200b_c986, 0x82e3_20fa_65ae_eb7a);
  }

  lemma FoxBlock2Left()
    ensures Xor64(0x17fd_604c_146f_d4c8, Mix1(0x706d_756a_2078_6f66)) == 0x951e_40b6_71c1_3fb2
  {
    hide Xor64, Mix1;
    FoxBlock2Mix1();
    PairsMean(0x17fd_604c_146f_d4c8, 0x82e3_20fa_65ae_eb7a);
  }

  lemma FoxBlock2Mix2()
    ensures Mix2(0x7420_7265_766f_2073) == 0x3480_5824_91ed_f347
  {
    hide Mix2;
    Mix2Is(0x7420_7265_766f_2073, 0xd23f_1255_d4c2_220d, 0xa984_441b_a47e_24ab, 0x3480_5824_91ed_f347);
  }

  lemma FoxBlock2Right()
    ensures Xor64(0xe3c5_3170_2238_a6de, Mix2(0x7420_7265_766f_2073)) == 0xd745_6954_b3d5_5599
  {
    hide Xor64, Mix2;
    FoxBlock2Mix2();
    PairsMean(0xe3c5_3170_2238_a6de, 0x3480_5824_91ed_f347);
  }

  lemma FoxBlock2First()
    ensures Stir1(0x17fd_604c_146f_d4c8, 0xe3c5_3170_2238_a6de, 0x706d_756a_2078_6f66) == 0xf4a0_2924_e544_e398
  {
    hide Xor64, Mix1, Stir1;
    FoxBlock2Left();
    Stir1Is(0x17fd_604c_146f_d4c8, 0xe3c5_3170_2238_a6de, 0x706d_756a_2078_6f66, 0x951e_40b6_71c1_3fb2,
            0xb38e_09fd_94a8_f205, 0xf4a0_2924_e544_e398);
  }

  lemma FoxBlock2Second()
    ensures Stir2(0xe3c5_3170_2238_a6de, 0xf4a0_2924_e544_e398, 0x7420_7265_766f_2073) == 0x88b6_23b9_4ccf_53ff
  {
    hide Xor64, Mix2, Stir2;
    FoxBlock2Right();
    Stir2Is(0xe3c5_3170_2238_a6de, 0xf4a0_2924_e544_e398, 0x7420_7265_766f_2073, 0xd745_6954_b3d5_5599,
            0x59ea_aacc_eba2_b4aa, 0x88b6_23b9_4ccf_53ff);
  }

  lemma FoxBlock2()
    ensures Block(State(0x17fd_604c_146f_d4c8, 0xe3c5_3170_2238_a6de), 0x706d_756a_2078_6f66, 0x7420_7265_766f_2073)
      == State(0xf4a0_2924_e544_e398, 0x88b6_23b9_4ccf_53ff)
  {
    hide Stir1, Stir2;
    FoxBlock2First();
    FoxBlock2Second();
  }

  lemma FoxTail()
    ensures Xor64(0xf4a0_2924_e544_e398, Mix1(0x2079_7a61_6c20_6568)) == 0x4a8c_e9a1_9353_f2eb
    ensures Xor64(0x88b6_23b9_4ccf_53ff, Mix2(0x67_6f64)) == 0xb8c9_a922_85f7_8baa
  {
    hide Xor64, Mix1, Mix2;
    Mix1Is(0x2079_7a61_6c20_6568, 0x5256_d81b_84a5_1788, 0xc252_8bc4_292b_6c0d, 0xbe2c_c085_7617_1173);
    assert Xor64(0xf4a0_2924_e544_e398, 0xbe2c_c085_7617_1173) == 0x4a8c_e9a1_9353_f2eb by {
      PairsMean(0xf4a0_2924_e544_e398, 0xbe2c_c085_7617_1173);
    }
    Mix2Is(0x67_6f64, 0x4c1c_9940_da3a_ae9c, 0xb475_5d38_9839_3281, 0x307f_8a9b_c938_d855);
    assert Xor64(0x88b6_23b9_4ccf_53ff, 0x307f_8a9b_c938_d855) == 0xb8c9_a922_85f7_8baa by {
      PairsMean(0x88b6_23b9_4ccf_53ff, 0x307f_8a9b_c938_d855);
    }
  }

  lemma FoxFmix1()
    ensures Fmix(0x356_92c4_194b_7e41) == 0xedcf_8b05_2606_4b5d
  {
    hide Xor64, XorShift33, Fmix;
    assert Xor64(0x356_92c4_194b_7e41, 0x1ab_4962) == 0x356_92c4_18e0_3723 by {
      PairsMean(0x356_92c4_194b_7e41, 0x1ab_4962);
    }
    XorShift33Is(0x356_92c4_194b_7e41, 0x356_92c4_18e0_3723);
    assert Xor64(0xc3cc_d585_3f52_4b07, 0x61e6_6ac2) == 0xc3cc_d585_5eb4_21c5 by {
      PairsMean(0xc3cc_d585_3f52_4b07, 0x61e6_6ac2);
    }
    XorShift33Is(0xc3cc_d585_3f52_4b07, 0xc3cc_d585_5eb4_21c5);
    assert Xor64(0xedcf_8b05_50e1_8edf, 0x76e7_c582) == 0xedcf_8b05_2606_4b5d by {
      PairsMean(0xedcf_8b05_50e1_8edf, 0x76e7_c582);
    }
    XorShift33Is(0xedcf_8b05_50e1_8edf, 0xedcf_8b05_2606_4b5d);
    FmixIs(0x356_92c4_194b_7e41, 0x356_92c4_18e0_3723, 0xc3cc_d585_3f52_4b07, 0xc3cc_d585_5eb4_21c5,
           0xedcf_8b05_50e1_8edf, 0xedcf_8b05_2606_4b5d);
  }

  lemma FoxFmix2()
    ensures Fmix(0xbc20_3be6_9f43_09c2) == 0x85ba_f436_ac5c_e5c4
  {
    hide Xor64, XorShift33, Fmix;
    assert Xor64(0xbc20_3be6_9f43_09c2, 0x5e10_1df3) == 0xbc20_3be6_c153_1431 by {
      PairsMean(0xbc20_3be6_9f43_09c2, 0x5e10_1df3);
    }
    XorShift33Is(0xbc20_3be6_9f43_09c2, 0xbc20_3be6_c153_1431);
    assert Xor64(0x253e_b7f0_4fd6_f73d, 0x129f_5bf8) == 0x253e_b7f0_5d49_acc5 by {
      PairsMean(0x253e_b7f0_4fd6_f73d, 0x129f_5bf8);
    }
    XorShift33Is(0x253e_b7f0_4fd6_f73d, 0x253e_b7f0_5d49_acc5);
    assert Xor64(0x85ba_f436_ee81_9fdf, 0x42dd_7a1b) == 0x85ba_f436_ac5c_e5c4 by {
      PairsMean(0x85ba_f436_ee81_9fdf, 0x42dd_7a1b);
    }
    XorShift33Is(0x85ba_f436_ee81_9fdf, 0x85ba_f436_ac5c_e5c4);
    FmixIs(0xbc20_3be6_9f43_09c2, 0xbc20_3be6_c153_1431, 0x253e_b7f0_4fd6_f73d, 0x253e_b7f0_5d49_acc5,
           0x85ba_f436_ee81_9fdf, 0x85ba_f436_ac5c_e5c4);
  }

  lemma FoxFinal()
    ensures Final(State(0x4a8c_e9a1_9353_f2eb, 0xb8c9_a922_85f7_8baa), 43)
      == State(0x738a_7f3b_d263_3121, 0xf945_7372_7ec0_16e5)
  {
    hide Xor64, Fmix;
    assert Xor64(0x4a8c_e9a1_9353_f2eb, 0x2b) == 0x4a8c_e9a1_9353_f2c0 by {
      PairsMean(0x4a8c_e9a1_9353_f2eb, 0x2b);
    }
    assert Xor64(0xb8c9_a922_85f7_8baa, 0x2b) == 0xb8c9_a922_85f7_8b81 by {
      PairsMean(0xb8c9_a922_85f7_8baa, 0x2b);
    }
    FoxFmix1();
    FoxFmix2();
  }

  lemma FoxHex1()
    ensures HexWord(0x738a_7f3b) + HexWord(0xd263_3121) == "738a7f3b" + "d2633121"
  {
    hide HexWord, HexDigit;
    Digits16();
    HexWordIs(0x738a_7f3b, "738a7f3b");
    HexWordIs(0xd263_3121, "d2633121");
  }

  lemma FoxHex2()
    ensures HexWord(0xf945_7372) + HexWord(0x7ec0_16e5) == "f9457372" + "7ec016e5"
  {
    hide HexWord, HexDigit;
    Digits16();
    HexWordIs(0xf945_7372, "f9457372");
    HexWordIs(0x7ec0_16e5, "7ec016e5");
  }

  lemma FoxHex()
    ensures Digest(State(0x738a_7f3b_d263_3121, 0xf945_7372_7ec0_16e5)) == "738a7f3bd2633121f94573727ec016e5"
  {
    hide HexWord;
    FoxHex1();
    FoxHex2();
    assert "738a7f3bd2633121f94573727ec016e5" == "738a7f3b" + "d2633121" + ("f9457372" + "7ec016e5");
  }

  // Eight characters of a text as a number.
  lemma TextLoad(t: string, w: uint64)
    requires |t| == 8 && forall i :: 0 <= i < 8 ==> t[i] as int < 0x100
    requires w == (((t[7] as int * 0x100 + t[6] as int) * 0x100 + t[5] as int) * 0x100 + t[4] as int) * 0x1_0000_0000
      + ((t[3] as int * 0x100 + t[2] as int) * 0x100 + t[1] as int) * 0x100 + t[0] as int
    ensures Load(Units(t)) == w
  {
    var u := Units(t);
    assert forall i :: 0 <= i < 8 ==> u[i] == t[i] as int;
    hide Load, Units;
    LoadIs(u);
  }

  // The pieces of the key as numbers.
  lemma FoxLoads()
    ensures Load(Units("The quic")) == 0x6369_7571_2065_6854
    ensures Load(Units("k brown ")) == 0x206e_776f_7262_206b
    ensures Load(Units("fox jump")) == 0x706d_756a_2078_6f66
    ensures Load(Units("s over t")) == 0x7420_7265_766f_2073
    ensures Load(Units("he lazy ")) == 0x2079_7a61_6c20_6568
    ensures Load(Units("dog") + [0, 0, 0, 0, 0]) == 0x67_6f64
  {
    hide Load, Units;
    TextLoad("The quic", 0x6369_7571_2065_6854);
    TextLoad("k brown ", 0x206e_776f_7262_206b);
    TextLoad("fox jump", 0x706d_756a_2078_6f66);
    TextLoad("s over t", 0x7420_7265_766f_2073);
    TextLoad("he lazy ", 0x2079_7a61_6c20_6568);
    DogLoad();
  }

  lemma DogLoad()
    ensures Load(Units("dog") + [0, 0, 0, 0, 0]) == 0x67_6f64
  {
    hide Load;
    LoadIs(Units("dog") + [0, 0, 0, 0, 0]);
  }

  lemma FoxTailWords(tail: seq<CodeUnit>)
    requires tail == Units("he lazy ") + Units("dog")
    ensures TailWord(tail[..8], 0) == 0x2079_7a61_6c20_6568 && TailWord(tail[8..], 0) == 0x67_6f64
  {
    hide TailWord, Load;
    var lazy, dog := Units("he lazy "), Units("dog");
    assert tail[..8] == lazy && tail[8..] == dog;
    FoxLoads();
    TailWordIs(lazy, []);
    assert lazy + [] == lazy;
    TailWordIs(dog, [0, 0, 0, 0, 0]);
  }

  // A key of two blocks and a tail.
  lemma HashOfTwoBlocks(key: seq<CodeUnit>, a: seq<CodeUnit>, b: seq<CodeUnit>, c: seq<CodeUnit>, d: seq<CodeUnit>,
                        tail: seq<CodeUnit>, seed: uint32)
    requires |a| == |b| == |c| == |d| == 8 && |tail| < 16 && key == a + b + (c + d + tail)
    ensures var s := Block(State(seed, seed), Load(a), Load(b));
      Hash(key, seed) == Final(Tail(Block(s, Load(c), Load(d)), tail), |key|)
  {
    hide Block, Load, Tail, Final, TailOf, Blocks;
    assert key == a + b + c + d + tail;
    TailOfIs(key, a + b + c + d, tail);
    BlockFirst(State(seed, seed), a, b, c + d + tail);
    BlockFirst(Block(State(seed, seed), Load(a), Load(b)), c, d, tail);
    NoBlocks(Block(Block(State(seed, seed), Load(a), Load(b)), Load(c), Load(d)), tail);
  }

  lemma TailOfIs(key: seq<CodeUnit>, front: seq<CodeUnit>, tail: seq<CodeUnit>)
    requires key == front + tail && |front| % 16 == 0 && |tail| < 16
    ensures TailOf(key) == tail
  {
    assert |key| % 16 == |tail|;
  }

  lemma NoBlocks(s: State, tail: seq<CodeUnit>)
    requires |tail| < 16
    ensures Blocks(s, tail) == s
  {
  }

  lemma FoxHash(key: seq<CodeUnit>, tail: seq<CodeUnit>)
    requires tail == Units("he lazy ") + Units("dog")
    requires key == Units("The quic") + Units("k brown ") + (Units("fox jump") + Units("s over t") + tail)
    ensures Hash(key, 0x9747_b28c) == State(0x738a_7f3b_d263_3121, 0xf945_7372_7ec0_16e5)
  {
    assert |key| == 43;
    hide Block, Load, TailWord, Mix1, Mix2, Xor64, Final, Hash, Units;
    HashOfTwoBlocks(key, Units("The quic"), Units("k brown "), Units("fox jump"), Units("s over t"), tail, 0x9747_b28c);
    FoxLoads();
    FoxBlock1();
    FoxBlock2();
    FoxTailWords(tail);
    FoxTail();
    FoxFinal();
  }

  /** The digest of a pangram with a seed: two blocks and a tail of eleven characters. */
  lemma DigestOfFox()
    ensures Digest(Hash(Units("The quick brown " + "fox jumps over t" + "he lazy dog"), 0x9747_b28c))
      == "738a7f3bd2633121f94573727ec016e5"
  {
    hide Units, Hash, Digest;
    var tail := Units("he lazy ") + Units("dog");
    assert "The quick brown " == "The quic" + "k brown ";
    assert "fox jumps over t" == "fox jump" + "s over t";
    assert "he lazy dog" == "he lazy " + "dog";
    UnitsJoin("The quic", "k brown ");
    UnitsJoin("fox jump", "s over t");
    UnitsJoin("he lazy ", "dog");
    UnitsJoin("The quick brown ", "fox jumps over t");
    UnitsJoin("The quick brown " + "fox jumps over t", "he lazy dog");
    var key := Units("The quick brown " + "fox jumps over t" + "he lazy dog");
    assert key == Units("The quic") + Units("k brown ") + (Units("fox jump") + Units("s over t") + tail);
    FoxHash(key, tail);
    FoxHex();
  }
}
