/** When two strings have the same fingerprint hash.

    Every stage of the hash is undone by an explicit inverse: the block step for a known state or for known words, the
    finaliser, and the hexadecimal output.  Two strings of one length that differ in a single block, or in the tail
    only, therefore collide exactly when the words loaded from that place agree. */
module MurmurCollisions {
  import opened JsNumber
  import opened X64
  import opened Murmur

  const C1_INVERSE: uint64 := 0xa984_09e8_82ce_4d7d
  const C2_INVERSE: uint64 := 0xa81e_14ed_d9de_2c7f
  const F1_INVERSE: uint64 := 0x4f74_430c_22a5_4005
  const F2_INVERSE: uint64 := 0x9cb4_b2f8_1293_37db
  const FIVE_INVERSE: uint64 := 0xcccc_cccc_cccc_cccd

  // ---------------------------------------------------------------- undoing one operation

  function Sub64(a: uint64, b: uint64): uint64
  {
    (a - b) % 0x1_0000_0000_0000_0000
  }

  lemma AddUndo(a: uint64, b: uint64)
    ensures Sub64(Add64(a, b), b) == a && Add64(Sub64(a, b), b) == a
  {
  }

  // Multiplication by a constant is undone by multiplication with its inverse modulo 2^64.
  lemma MulUndo(a: uint64, c: uint64, d: uint64)
    requires (c * d) % 0x1_0000_0000_0000_0000 == 1
    ensures Mul64(Mul64(a, c), d) == a
  {
    var m := 0x1_0000_0000_0000_0000;
    var q, r := a * c / m, a * c % m;
    var k := c * d / m;
    assert c * d == k * m + 1;
    ReduceProduct(a, c, d, q, r, k, m);
    ModUnique(r * d, m, a * k - q * d, a);
  }

  lemma ReduceProduct(a: int, c: int, d: int, q: int, r: int, k: int, m: int)
    requires a * c == q * m + r && c * d == k * m + 1
    ensures r * d == (a * k - q * d) * m + a
  {
    assert a * (c * d) == a * (k * m) + a;
    assert a * c * d == q * m * d + r * d;
    MulAssoc(a, c, d);
    MulAssoc(a, k, m);
    MulAssoc(q, m, d);
    MulAssoc(m, q, d);
    Distrib(a * k, q * d, m);
  }

  lemma RotlUndo(a: uint64, n: nat)
    requires 0 < n < 64
    ensures Rotl64(Rotl64(a, n), 64 - n) == a
  {
    hide Glue, Low, High;
    var h, l := High(a, 64 - n), Low(a, 64 - n);
    RotlBound(a, n);
    GlueParts(l, n, h);
    PartsGlue(a, 64 - n);
  }

  lemma Xor64Undo(a: uint64, b: uint64)
    ensures Xor64(Xor64(a, b), b) == a
  {
    XorUndo(a, b);
  }

  // h ^= h >>> 33 is its own inverse.
  lemma XorShift33Undo(h: uint64)
    ensures XorShift33(XorShift33(h)) == h
  {
    hide BitXor, High, Low;
    HighSmaller(h, 33);
    var t := High(h, 33);
    XorHigh(h, t, 33);
    HighHigh(h, 33, 33);
    assert High(h, 66) == 0 by {
      HighHigh(h, 64, 2);
      assert Pow2(64) == 0x1_0000_0000_0000_0000 by { Pow2Values(); }
      LowAll(h, 64);
      HighSmaller(0, 2);
    }
    XorZero(t);
    XorUndo(h, t);
  }

  // ---------------------------------------------------------------- undoing the finaliser

  function UnFmix(h: uint64): uint64
  {
    XorShift33(Mul64(XorShift33(Mul64(XorShift33(h), F2_INVERSE)), F1_INVERSE))
  }

  lemma FmixIsPermutation(h: uint64)
    ensures UnFmix(Fmix(h)) == h && Fmix(UnFmix(h)) == h
  {
    hide XorShift33, Mul64;
    UnFmixFmix(h);
    FmixUnFmix(h);
  }

  lemma UnFmixFmix(h: uint64)
    ensures UnFmix(Fmix(h)) == h
  {
    hide XorShift33, Mul64;
    var a := XorShift33(h);
    var b := Mul64(a, F1);
    var c := XorShift33(b);
    var d := Mul64(c, F2);
    XorShift33Undo(h);
    XorShift33Undo(b);
    XorShift33Undo(d);
    MulUndo(a, F1, F1_INVERSE);
    MulUndo(c, F2, F2_INVERSE);
  }

  lemma FmixUnFmix(h: uint64)
    ensures Fmix(UnFmix(h)) == h
  {
    hide XorShift33, Mul64;
    var a := XorShift33(h);
    var b := Mul64(a, F2_INVERSE);
    var c := XorShift33(b);
    var d := Mul64(c, F1_INVERSE);
    XorShift33Undo(h);
    XorShift33Undo(b);
    XorShift33Undo(d);
    MulUndo(a, F2_INVERSE, F2);
    MulUndo(c, F1_INVERSE, F1);
  }

  function UnFinal(s: State, length: uint64): State
  {
    var f2 := Sub64(s.h2, s.h1);
    var f1 := Sub64(s.h1, f2);
    var h1, h2 := UnFmix(f1), UnFmix(f2);
    var x2 := Sub64(h2, h1);
    State(Xor64(Sub64(h1, x2), length), Xor64(x2, length))
  }

  lemma FinalIsPermutation(s: State, length: uint64)
    ensures UnFinal(Final(s, length), length) == s && Final(UnFinal(s, length), length) == s
  {
    FinalUnFinal(s, length);
    hide Fmix, UnFmix, Xor64, Add64, Sub64;
    var x1, x2 := Xor64(s.h1, length), Xor64(s.h2, length);
    var h1 := Add64(x1, x2);
    var h2 := Add64(x2, h1);
    var f1, f2 := Fmix(h1), Fmix(h2);
    AddUndo(x1, x2);
    AddUndo(x2, h1);
    AddUndo(f1, f2);
    AddUndo(f2, Add64(f1, f2));
    FmixIsPermutation(h1);
    FmixIsPermutation(h2);
    Xor64Undo(s.h1, length);
    Xor64Undo(s.h2, length);
  }

  lemma FinalUnFinal(s: State, length: uint64)
    ensures Final(UnFinal(s, length), length) == s
  {
    hide Fmix, UnFmix, Xor64, Add64, Sub64;
    var f2 := Sub64(s.h2, s.h1);
    var f1 := Sub64(s.h1, f2);
    var h1, h2 := UnFmix(f1), UnFmix(f2);
    var x2 := Sub64(h2, h1);
    var x1 := Sub64(h1, x2);
    AddUndo(s.h2, s.h1);
    AddUndo(s.h1, f2);
    AddUndo(h2, h1);
    AddUndo(h1, x2);
    FmixIsPermutation(f1);
    FmixIsPermutation(f2);
    Xor64Undo(x1, length);
    Xor64Undo(x2, length);
  }

  // ---------------------------------------------------------------- undoing a block

  function UnMix1(k: uint64): uint64
  {
    Mul64(Rotl64(Mul64(k, C2_INVERSE), 33), C1_INVERSE)
  }

  function UnMix2(k: uint64): uint64
  {
    Mul64(Rotl64(Mul64(k, C1_INVERSE), 31), C2_INVERSE)
  }

  lemma MixUndo(k: uint64)
    ensures UnMix1(Mix1(k)) == k && UnMix2(Mix2(k)) == k
  {
    hide Mul64, Rotl64;
    MulUndo(k, C1, C1_INVERSE);
    MulUndo(k, C2, C2_INVERSE);
    RotlUndo(Mul64(k, C1), 31);
    RotlUndo(Mul64(k, C2), 33);
    MulUndo(Rotl64(Mul64(k, C1), 31), C2, C2_INVERSE);
    MulUndo(Rotl64(Mul64(k, C2), 33), C1, C1_INVERSE);
  }

  // Before the multiplication by five: the rotated xor of a state word and a mixed key word.
  function UnStir(h: uint64, other: uint64, add: uint64, rotation: nat): uint64
    requires rotation <= 64
  {
    Rotl64(Sub64(Mul64(Sub64(h, add), FIVE_INVERSE), other), rotation)
  }

  lemma UnStirStir(x: uint64, other: uint64, add: uint64, n: nat)
    requires 0 < n < 64
    ensures UnStir(Add64(Mul64(Add64(Rotl64(x, n), other), 5), add), other, add, 64 - n) == x
  {
    hide Mul64, Rotl64, Add64, Sub64;
    var r := Rotl64(x, n);
    var t := Add64(r, other);
    RotlUndo(x, n);
    AddUndo(r, other);
    MulUndo(t, 5, FIVE_INVERSE);
    AddUndo(Mul64(t, 5), add);
  }

  lemma {:induction false} XorCommutes(a: nat, b: nat)
    ensures BitXor(a, b) == BitXor(b, a)
    decreases a + b
  {
    if a > 0 || b > 0 {
      XorCommutes(a / 2, b / 2);
    }
  }

  // For known key words a block step can be undone: no two states lead to the same state.
  lemma BlockKeepsStatesApart(s: State, t: State, k1: uint64, k2: uint64)
    requires Block(s, k1, k2) == Block(t, k1, k2)
    ensures s == t
  {
    hide Mul64, Rotl64, Add64, Xor64, Mix1, Mix2, UnStir;
    var r := Block(s, k1, k2);
    UnStirStir(Xor64(s.h2, Mix2(k2)), r.h1, 0x3849_5ab5, 31);
    UnStirStir(Xor64(t.h2, Mix2(k2)), r.h1, 0x3849_5ab5, 31);
    Xor64Undo(s.h2, Mix2(k2));
    Xor64Undo(t.h2, Mix2(k2));
    UnStirStir(Xor64(s.h1, Mix1(k1)), s.h2, 0x52dc_e729, 27);
    UnStirStir(Xor64(t.h1, Mix1(k1)), t.h2, 0x52dc_e729, 27);
    Xor64Undo(s.h1, Mix1(k1));
    Xor64Undo(t.h1, Mix1(k1));
  }

  // For a known state a block step determines the key words it was given.
  lemma BlockKeepsWordsApart(s: State, k1: uint64, k2: uint64, j1: uint64, j2: uint64)
    requires Block(s, k1, k2) == Block(s, j1, j2)
    ensures k1 == j1 && k2 == j2
  {
    hide Mul64, Rotl64, Add64, Xor64, Mix1, Mix2, UnStir;
    var r := Block(s, k1, k2);
    UnStirStir(Xor64(s.h1, Mix1(k1)), s.h2, 0x52dc_e729, 27);
    UnStirStir(Xor64(s.h1, Mix1(j1)), s.h2, 0x52dc_e729, 27);
    UnStirStir(Xor64(s.h2, Mix2(k2)), r.h1, 0x3849_5ab5, 31);
    UnStirStir(Xor64(s.h2, Mix2(j2)), r.h1, 0x3849_5ab5, 31);
    XorCancel(s.h1, Mix1(k1), Mix1(j1));
    XorCancel(s.h2, Mix2(k2), Mix2(j2));
    MixUndo(k1);
    MixUndo(j1);
    MixUndo(k2);
    MixUndo(j2);
  }

  lemma XorCancel(h: uint64, a: uint64, b: uint64)
    requires Xor64(h, a) == Xor64(h, b)
    ensures a == b
  {
    hide BitXor;
    XorCommutes(h, a);
    XorCommutes(h, b);
    XorUndo(a, h);
    XorUndo(b, h);
  }

  // ---------------------------------------------------------------- hexadecimal output loses nothing

  function FromHex(s: string): nat
  {
    if s == "" then 0 else FromHex(s[..|s| - 1]) * 16 + HexValue(s[|s| - 1])
  }

  function Pow16(n: nat): nat
  {
    if n == 0 then 1 else 16 * Pow16(n - 1)
  }

  lemma {:induction false} FromHexToString(x: nat, n: nat)
    requires n >= 1 && x < Pow16(n)
    ensures FromHex(ToString16(x)) == x && 1 <= |ToString16(x)| <= n
  {
    hide HexDigit;
    HexDigitRoundTrip(x % 16);
    if x < 16 {
      assert ToString16(x)[..0] == "";
    } else if n > 1 {
      FromHexToString(x / 16, n - 1);
      var t := ToString16(x / 16);
      assert (t + [HexDigit(x % 16)])[..|t|] == t;
    }
  }

  lemma {:induction false} LeadingZeros(z: string, t: string)
    requires forall i :: 0 <= i < |z| ==> z[i] == '0'
    ensures FromHex(z + t) == FromHex(t)
    decreases |z| + |t|
  {
    if t != "" {
      assert (z + t)[..|z + t| - 1] == z + t[..|t| - 1];
      LeadingZeros(z, t[..|t| - 1]);
    } else if z != "" {
      var z' := z[..|z| - 1];
      assert z + t == z && z' + t == z';
      LeadingZeros(z', t);
    }
  }

  lemma HexWordMeans(x: uint32)
    ensures |HexWord(x)| == 8 && FromHex(HexWord(x)) == x
  {
    assert Pow16(4) == 0x1_0000 && Pow16(8) == 0x1_0000_0000;
    FromHexToString(x, 8);
    var t := ToString16(x);
    var z := "00000000"[|t|..];
    assert HexWord(x) == z + t;
    LeadingZeros(z, t);
  }

  function HighWord(h: uint64): uint32
  {
    h / 0x1_0000_0000
  }

  lemma DigestDeterminesState(s: State, t: State)
    requires Digest(s) == Digest(t)
    ensures s == t
  {
    hide HexWord, FromHex;
    var a1, a2, a3, a4 := HighWord(s.h1), s.h1 % 0x1_0000_0000, HighWord(s.h2), s.h2 % 0x1_0000_0000;
    var b1, b2, b3, b4 := HighWord(t.h1), t.h1 % 0x1_0000_0000, HighWord(t.h2), t.h2 % 0x1_0000_0000;
    HexWordMeans(a1);
    HexWordMeans(a2);
    HexWordMeans(a3);
    HexWordMeans(a4);
    HexWordMeans(b1);
    HexWordMeans(b2);
    HexWordMeans(b3);
    HexWordMeans(b4);
    var d, e := Digest(s), Digest(t);
    assert d[..8] == HexWord(a1) && d[8..16] == HexWord(a2) && d[16..24] == HexWord(a3) && d[24..] == HexWord(a4);
    assert e[..8] == HexWord(b1) && e[8..16] == HexWord(b2) && e[16..24] == HexWord(b3) && e[24..] == HexWord(b4);
  }

  // ---------------------------------------------------------------- words and characters

  ghost predicate IsBytes(key: seq<CodeUnit>)
  {
    forall i :: 0 <= i < |key| ==> key[i] < 256
  }

  // The tail is a zero-padded little-endian load when every character is a byte.
  lemma {:induction false} TailIsLoad(s: seq<CodeUnit>, i: nat)
    requires i <= |s| <= 8 && IsBytes(s)
    ensures TailWord(s, i) == Glue(LittleEndian(s[i..]), 8 * i, 0)
    decreases |s| - i
  {
    hide BitXor, Low, Glue, LittleEndian, Shl64;
    if i == |s| {
      EmptyTail(8 * i);
      assert s[i..] == [];
    } else {
      TailIsLoad(s, i + 1);
      assert s[i..] == [s[i]] + s[i + 1..];
      XorByteIn(LittleEndian(s[i + 1..]), s[i], i);
      ConsByte(s[i], s[i + 1..]);
    }
  }

  lemma EmptyTail(n: nat)
    ensures Glue(LittleEndian([]), n, 0) == 0
  {
  }

  lemma ConsByte(c: CodeUnit, s: seq<CodeUnit>)
    requires c < 256
    ensures LittleEndian([c] + s) == Glue(LittleEndian(s), 8, c)
  {
    Pow2Values();
    assert ([c] + s)[1..] == s;
  }

  lemma XorByteIn(w: nat, c: CodeUnit, i: nat)
    requires c < 256 && i < 8
    ensures BitXor(Glue(w, 8 * i + 8, 0), Shl64(c, 8 * i)) == Glue(Glue(w, 8, c), 8 * i, 0)
  {
    hide BitXor, Glue, Shl64;
    ShiftedByte(c, i);
    Pow2Values();
    GlueBound(c, 8, 0, 8 * i);
    XorGlue(w, Glue(c, 8 * i, 0), 8 * i + 8);
    GlueGlue(w, 8, c, 8 * i, 0);
  }

  lemma ShiftedByte(c: CodeUnit, i: nat)
    requires c < 256 && i < 8
    ensures Shl64(c, 8 * i) == Glue(c, 8 * i, 0)
  {
    Pow2Values();
    Pow2Add(8, 56 - 8 * i);
    MulAtLeast(Pow2(56 - 8 * i), 256);
    LowAll(c, 64 - 8 * i);
  }

  lemma {:induction false} LittleEndianDetermines(s: seq<int>, t: seq<int>)
    requires |s| == |t|
    ensures LittleEndian(s) == LittleEndian(t) <==> forall i :: 0 <= i < |s| ==> s[i] % 256 == t[i] % 256
  {
    if s != [] {
      LittleEndianDetermines(s[1..], t[1..]);
      AtFront(s, t);
    }
  }

  lemma AtFront(s: seq<int>, t: seq<int>)
    requires |s| == |t| > 0
    ensures (forall i :: 0 <= i < |s| ==> s[i] % 256 == t[i] % 256) <==>
      s[0] % 256 == t[0] % 256 && forall i :: 0 <= i < |s| - 1 ==> s[1..][i] % 256 == t[1..][i] % 256
  {
    if s[0] % 256 == t[0] % 256 && forall i :: 0 <= i < |s| - 1 ==> s[1..][i] % 256 == t[1..][i] % 256 {
      forall i | 0 <= i < |s| ensures s[i] % 256 == t[i] % 256 {
        if i > 0 { assert s[i] == s[1..][i - 1] && t[i] == t[1..][i - 1]; }
      }
    }
  }

  ghost predicate SameLowBytes(s: seq<CodeUnit>, t: seq<CodeUnit>)
    requires |s| == |t|
  {
    forall i :: 0 <= i < |s| ==> s[i] as int % 256 == t[i] as int % 256
  }

  lemma AbsorbDetermines(s: State, a: seq<CodeUnit>, b: seq<CodeUnit>)
    requires |a| == |b| == 16
    ensures Absorb(s, a) == Absorb(s, b) <==> SameLowBytes(a, b)
  {
    hide Block, LittleEndian;
    LittleEndianDetermines(a[..8], b[..8]);
    LittleEndianDetermines(a[8..], b[8..]);
    if Absorb(s, a) == Absorb(s, b) {
      BlockKeepsWordsApart(s, Load(a[..8]), Load(a[8..]), Load(b[..8]), Load(b[8..]));
      forall i | 0 <= i < 16 ensures a[i] as int % 256 == b[i] as int % 256 {
        if i < 8 { assert a[i] == a[..8][i] && b[i] == b[..8][i]; }
        else { assert a[i] == a[8..][i - 8] && b[i] == b[8..][i - 8]; }
      }
    }
  }

  lemma {:induction false} BlocksSplit(s: State, key: seq<CodeUnit>, n: nat)
    requires 16 * n <= |key|
    ensures Blocks(s, key) == Blocks(Blocks(s, key[..16 * n]), key[16 * n..])
    decreases n
  {
    hide Absorb;
    if n == 0 {
      assert key[..0] == [] && key[0..] == key;
    } else {
      var p := key[..16 * n];
      assert p[..16] == key[..16] && p[16..] == key[16..][..16 * (n - 1)];
      assert key[16..][16 * (n - 1)..] == key[16 * n..];
      BlocksSplit(Absorb(s, key[..16]), key[16..], n - 1);
    }
  }

  lemma {:induction false} BlocksKeepStatesApart(s: State, t: State, key: seq<CodeUnit>)
    requires Blocks(s, key) == Blocks(t, key)
    ensures s == t
    decreases |key|
  {
    hide Block, Load;
    if |key| >= 16 {
      BlocksKeepStatesApart(Absorb(s, key[..16]), Absorb(t, key[..16]), key[16..]);
      BlockKeepsStatesApart(s, t, Load(key[..16][..8]), Load(key[..16][8..]));
    }
  }

  lemma TailKeepsStatesApart(s: State, t: State, tail: seq<CodeUnit>)
    requires |tail| < 16 && Tail(s, tail) == Tail(t, tail)
    ensures s == t
  {
    hide Mix1, Mix2, TailWord, Xor64;
    if |tail| > 0 {
      var k1 := Mix1(TailWord(if |tail| <= 8 then tail else tail[..8], 0));
      Xor64Undo(s.h1, k1);
      Xor64Undo(t.h1, k1);
    }
    if |tail| > 8 {
      Xor64Undo(s.h2, Mix2(TailWord(tail[8..], 0)));
      Xor64Undo(t.h2, Mix2(TailWord(tail[8..], 0)));
    }
  }

  // The two words of a tail; a tail of up to eight characters leaves the second one zero.
  function TailWords(tail: seq<CodeUnit>): (uint64, uint64)
    requires |tail| < 16
  {
    if |tail| <= 8 then (TailWord(tail, 0), 0) else (TailWord(tail[..8], 0), TailWord(tail[8..], 0))
  }

  lemma TailDetermines(s: State, a: seq<CodeUnit>, b: seq<CodeUnit>)
    requires |a| == |b| < 16
    ensures Tail(s, a) == Tail(s, b) <==> TailWords(a) == TailWords(b)
  {
    hide Mix1, Mix2, TailWord, Xor64, UnMix1, UnMix2;
    var x, y := TailWords(a), TailWords(b);
    if |a| == 0 {
      assert a == b;
    } else if Tail(s, a) == Tail(s, b) {
      XorCancel(s.h1, Mix1(x.0), Mix1(y.0));
      MixUndo(x.0);
      MixUndo(y.0);
      if |a| > 8 {
        XorCancel(s.h2, Mix2(x.1), Mix2(y.1));
        MixUndo(x.1);
        MixUndo(y.1);
      }
    }
  }

  lemma ByteTailDetermines(a: seq<CodeUnit>, b: seq<CodeUnit>)
    requires |a| == |b| < 16
    requires IsBytes(a) && IsBytes(b)
    ensures TailWords(a) == TailWords(b) <==> a == b
  {
    hide TailWord, LittleEndian;
    if TailWords(a) == TailWords(b) {
      if |a| <= 8 {
        ByteWordDetermines(a, b);
      } else {
        ByteWordDetermines(a[..8], b[..8]);
        ByteWordDetermines(a[8..], b[8..]);
        assert a == a[..8] + a[8..] && b == b[..8] + b[8..];
      }
    }
  }

  lemma ByteWordDetermines(a: seq<CodeUnit>, b: seq<CodeUnit>)
    requires |a| == |b| <= 8 && TailWord(a, 0) == TailWord(b, 0)
    requires IsBytes(a) && IsBytes(b)
    ensures a == b
  {
    hide TailWord, LittleEndian;
    TailIsLoad(a, 0);
    TailIsLoad(b, 0);
    GlueZero(LittleEndian(a));
    GlueZero(LittleEndian(b));
    assert a[0..] == a && b[0..] == b;
    LittleEndianDetermines(a, b);
    forall i | 0 <= i < |a| ensures a[i] == b[i] {
      assert a[i] as int % 256 == b[i] as int % 256;
    }
  }

  // ---------------------------------------------------------------- tails of wide characters

  // Byte i of a tail word: the low byte of character i meets the high byte of the character before.
  function TailByte(s: seq<CodeUnit>, i: nat): nat
  {
    BitXor(if i < |s| then s[i] as int % 256 else 0, if 0 < i <= |s| then s[i - 1] as int / 256 else 0)
  }

  ghost predicate SameTailBytes(s: seq<CodeUnit>, t: seq<CodeUnit>)
    requires |s| == |t|
  {
    forall i: nat :: i <= |s| && i < 8 ==> TailByte(s, i) == TailByte(t, i)
  }

  // Both halves of two tails agree.
  ghost predicate SameTails(s: seq<CodeUnit>, t: seq<CodeUnit>)
    requires |s| == |t| < 16
  {
    if |s| <= 8 then SameTailBytes(s, t) else SameTailBytes(s[..8], t[..8]) && SameTailBytes(s[8..], t[8..])
  }

  // The characters xor-ed in at their places in m bytes, what does not fit cut off.
  function Overlaid(t: seq<CodeUnit>, m: nat): nat
  {
    if t == [] || m == 0 then 0 else BitXor(Glue(Overlaid(t[1..], m - 1), 8, 0), Low(t[0], 8 * m))
  }

  lemma {:induction false} TailIsOverlaid(s: seq<CodeUnit>, i: nat)
    requires i <= |s| <= 8
    ensures TailWord(s, i) == Glue(Overlaid(s[i..], 8 - i), 8 * i, 0)
    decreases |s| - i
  {
    hide BitXor, Low, Glue, Overlaid, Shl64;
    if i == |s| {
      NothingOverlaid(s[i..], 8 - i);
    } else {
      TailIsOverlaid(s, i + 1);
      var v, c := Overlaid(s[i + 1..], 7 - i), s[i];
      assert s[i..][0] == c && s[i..][1..] == s[i + 1..];
      GlueGlue(v, 8, 0, 8 * i, 0);
      ZeroGlue(8 * i);
      XorSplit(Glue(v, 8, 0), 0, Low(c, 64 - 8 * i), 0, 8 * i);
      XorZero(0);
      ShlIsLow(c, 8 * i);
      OverlaidStep(s[i..], 8 - i);
    }
  }

  lemma NothingOverlaid(t: seq<CodeUnit>, m: nat)
    requires t == []
    ensures forall n: nat :: Glue(Overlaid(t, m), n, 0) == 0
  {
  }

  lemma OverlaidStep(t: seq<CodeUnit>, m: nat)
    requires t != [] && m > 0
    ensures Overlaid(t, m) == BitXor(Glue(Overlaid(t[1..], m - 1), 8, 0), Low(t[0], 8 * m))
  {
  }

  lemma ZeroGlue(n: nat)
    ensures Glue(0, n, 0) == 0
  {
  }

  lemma ShlIsLow(c: CodeUnit, n: nat)
    requires n <= 64
    ensures Shl64(c, n) == Glue(Low(c, 64 - n), n, 0)
  {
  }

  // The same number byte by byte, on top of what the character before left over.
  function Carried(t: seq<CodeUnit>, c: nat, m: nat): nat
  {
    if m == 0 then 0
    else if t == [] then c
    else BitXor(t[0] as int % 256, c) + 256 * Carried(t[1..], t[0] as int / 256, m - 1)
  }

  lemma {:induction false} OverlaidIsCarried(t: seq<CodeUnit>, c: nat, m: nat)
    requires |t| <= m && c < 256 && m > 0
    ensures BitXor(Overlaid(t, m), c) == Carried(t, c, m)
  {
    hide BitXor, Low, Glue, Overlaid, Pow2;
    if t == [] {
      NothingOverlaid(t, m);
      OverlaidNothing(t, m);
      XorZero(c);
    } else {
      var v, l, h := Overlaid(t[1..], m - 1), t[0] as int % 256, t[0] as int / 256;
      var h' := if m > 1 then h else 0;
      assert Pow2(8) == 256 by { Pow2Values(); }
      OverlaidStep(t, m);
      LowParts(t[0], m);
      XorSplit(v, 0, h', l, 8);
      XorZero(l);
      GlueIs(0, 8, 256, c);
      XorSplit(BitXor(v, h'), l, 0, c, 8);
      XorZero(BitXor(v, h'));
      XorCommutes(BitXor(v, h'), 0);
      ByteXorBound(l, c);
      GlueIs(BitXor(v, h'), 8, 256, BitXor(l, c));
      if m > 1 {
        OverlaidIsCarried(t[1..], h, m - 1);
      } else {
        OverlaidNothing(t[1..], 0);
        XorZero(0);
      }
    }
  }

  lemma OverlaidNothing(t: seq<CodeUnit>, m: nat)
    requires t == [] || m == 0
    ensures Overlaid(t, m) == 0
  {
  }

  lemma ByteXorBound(a: nat, b: nat)
    requires a < 256 && b < 256
    ensures BitXor(a, b) < 256
  {
    assert Pow2(8) == 256 by { Pow2Values(); }
    XorBound(a, b, 8);
  }

  // A character cut to m bytes, in bytes.
  lemma LowParts(c: CodeUnit, m: nat)
    requires m > 0
    ensures Low(c, 8 * m) == Glue(if m > 1 then c as int / 256 else 0, 8, c as int % 256)
  {
    assert Pow2(8) == 256 && Pow2(16) == 0x1_0000 by { Pow2Values(); }
    hide Low, Glue, Pow2;
    if m > 1 {
      Pow2Add(16, 8 * m - 16);
      MulAtLeast(Pow2(8 * m - 16), 0x1_0000);
      LowAll(c, 8 * m);
      GlueIs(c as int / 256, 8, 256, c as int % 256);
    } else {
      LowIs(c, 8, 256);
      GlueIs(0, 8, 256, c as int % 256);
    }
  }

  function CarriedByte(t: seq<CodeUnit>, c: nat, i: nat): nat
  {
    BitXor(if i < |t| then t[i] as int % 256 else 0,
           if i == 0 then c else if i <= |t| then t[i - 1] as int / 256 else 0)
  }

  lemma CarriedByteStep(t: seq<CodeUnit>, c: nat, i: nat)
    requires t != [] && i > 0
    ensures CarriedByte(t, c, i) == CarriedByte(t[1..], t[0] as int / 256, i - 1)
  {
    hide BitXor;
  }

  ghost predicate SameCarried(t: seq<CodeUnit>, u: seq<CodeUnit>, c: nat, d: nat, m: nat)
  {
    forall i: nat :: i <= |t| && i < m ==> CarriedByte(t, c, i) == CarriedByte(u, d, i)
  }

  lemma SameCarriedStep(t: seq<CodeUnit>, u: seq<CodeUnit>, c: nat, d: nat, m: nat)
    requires |t| == |u| && t != [] && m > 0
    ensures SameCarried(t, u, c, d, m) <==> (CarriedByte(t, c, 0) == CarriedByte(u, d, 0)
      && SameCarried(t[1..], u[1..], t[0] as int / 256, u[0] as int / 256, m - 1))
  {
    hide CarriedByte;
    var t', u', h, g := t[1..], u[1..], t[0] as int / 256, u[0] as int / 256;
    forall i: nat | i > 0
      ensures CarriedByte(t, c, i) == CarriedByte(t', h, i - 1) && CarriedByte(u, d, i) == CarriedByte(u', g, i - 1)
    {
      CarriedByteStep(t, c, i);
      CarriedByteStep(u, d, i);
    }
    if SameCarried(t, u, c, d, m) {
      forall i: nat | i <= |t'| && i < m - 1 ensures CarriedByte(t', h, i) == CarriedByte(u', g, i) {
        assert CarriedByte(t, c, i + 1) == CarriedByte(u, d, i + 1);
      }
    }
  }

  lemma {:induction false} CarriedDetermines(t: seq<CodeUnit>, u: seq<CodeUnit>, c: nat, d: nat, m: nat)
    requires |t| == |u| <= m && c < 256 && d < 256
    ensures Carried(t, c, m) == Carried(u, d, m) <==> SameCarried(t, u, c, d, m)
  {
    hide BitXor;
    if m > 0 {
      if t == [] {
        XorZero(c);
        XorZero(d);
        assert CarriedByte(t, c, 0) == c && CarriedByte(u, d, 0) == d;
      } else {
        SameCarriedStep(t, u, c, d, m);
        CarriedDetermines(t[1..], u[1..], t[0] as int / 256, u[0] as int / 256, m - 1);
        ByteXorBound(t[0] as int % 256, c);
        ByteXorBound(u[0] as int % 256, d);
        hide SameCarried;
        assert CarriedByte(t, c, 0) == BitXor(t[0] as int % 256, c);
        assert CarriedByte(u, d, 0) == BitXor(u[0] as int % 256, d);
      }
    }
  }

  lemma TailWordDetermines(s: seq<CodeUnit>, t: seq<CodeUnit>)
    requires |s| == |t| <= 8
    ensures TailWord(s, 0) == TailWord(t, 0) <==> SameTailBytes(s, t)
  {
    hide BitXor, TailWord, Overlaid, Carried;
    assert s[0..] == s && t[0..] == t;
    TailIsOverlaid(s, 0);
    TailIsOverlaid(t, 0);
    GlueZero(Overlaid(s, 8));
    GlueZero(Overlaid(t, 8));
    OverlaidIsCarried(s, 0, 8);
    OverlaidIsCarried(t, 0, 8);
    XorCommutes(Overlaid(s, 8), 0);
    XorCommutes(Overlaid(t, 8), 0);
    XorZero(Overlaid(s, 8));
    XorZero(Overlaid(t, 8));
    CarriedDetermines(s, t, 0, 0, 8);
    forall i: nat ensures CarriedByte(s, 0, i) == TailByte(s, i) && CarriedByte(t, 0, i) == TailByte(t, i) {
    }
  }

  lemma TailsDetermine(s: seq<CodeUnit>, t: seq<CodeUnit>)
    requires |s| == |t| < 16
    ensures TailWords(s) == TailWords(t) <==> SameTails(s, t)
  {
    hide TailWord, SameTailBytes;
    if |s| <= 8 {
      TailWordDetermines(s, t);
    } else {
      TailWordDetermines(s[..8], t[..8]);
      TailWordDetermines(s[8..], t[8..]);
    }
  }

  // ---------------------------------------------------------------- collisions

  /** Two strings of one length that agree outside their n-th block collide, for whatever seed, exactly when the low
      bytes of that block agree. */
  lemma CollisionInOneBlock(a: seq<CodeUnit>, b: seq<CodeUnit>, n: nat, seed: int)
    requires |a| == |b| && 16 * n + 16 <= |a|
    requires a[..16 * n] == b[..16 * n] && a[16 * n + 16..] == b[16 * n + 16..]
    ensures Digest(Hash(a, seed)) == Digest(Hash(b, seed))
      <==> SameLowBytes(a[16 * n..16 * n + 16], b[16 * n..16 * n + 16])
  {
    hide Absorb, Final, Tail, Digest;
    var start := State(U32(seed), U32(seed));
    var s := Blocks(start, a[..16 * n]);
    var x, y := a[16 * n..16 * n + 16], b[16 * n..16 * n + 16];
    var rest := a[16 * n + 16..];
    SplitAroundBlock(start, a, n);
    SplitAroundBlock(start, b, n);
    TailOutsideBlock(a, b, n);
    AbsorbDetermines(s, x, y);
    if Digest(Hash(a, seed)) == Digest(Hash(b, seed)) {
      DigestDeterminesState(Hash(a, seed), Hash(b, seed));
      SameStateBeforeFinish(Blocks(start, a), Blocks(start, b), TailOf(a), U32(|a|));
      BlocksKeepStatesApart(Absorb(s, x), Absorb(s, y), rest);
    }
  }

  lemma SplitAroundBlock(s: State, key: seq<CodeUnit>, n: nat)
    requires 16 * n + 16 <= |key|
    ensures Blocks(s, key) == Blocks(Absorb(Blocks(s, key[..16 * n]), key[16 * n..16 * n + 16]), key[16 * n + 16..])
  {
    hide Absorb;
    BlocksSplit(s, key, n);
    var t := key[16 * n..];
    assert t[..16] == key[16 * n..16 * n + 16] && t[16..] == key[16 * n + 16..];
  }

  lemma TailOutsideBlock(a: seq<CodeUnit>, b: seq<CodeUnit>, n: nat)
    requires |a| == |b| && 16 * n + 16 <= |a| && a[16 * n + 16..] == b[16 * n + 16..]
    ensures TailOf(a) == TailOf(b)
  {
    var k := |a| - |a| % 16;
    assert a[k..] == a[16 * n + 16..][k - (16 * n + 16)..];
    assert b[k..] == b[16 * n + 16..][k - (16 * n + 16)..];
  }

  lemma SameStateBeforeFinish(s: State, t: State, tail: seq<CodeUnit>, length: uint64)
    requires |tail| < 16 && Final(Tail(s, tail), length) == Final(Tail(t, tail), length)
    ensures s == t
  {
    hide Final, UnFinal, Tail;
    FinalIsPermutation(Tail(s, tail), length);
    FinalIsPermutation(Tail(t, tail), length);
    TailKeepsStatesApart(s, t, tail);
  }

  /** Two strings of one length that agree up to the tail collide exactly when in both halves of the tail each
      character's low byte, xor-ed with the high byte of the character before, agrees. */
  lemma CollisionInTail(a: seq<CodeUnit>, b: seq<CodeUnit>, seed: int)
    requires |a| == |b| && a[..|a| - |a| % 16] == b[..|b| - |b| % 16]
    ensures Digest(Hash(a, seed)) == Digest(Hash(b, seed)) <==> SameTails(TailOf(a), TailOf(b))
  {
    TailsDetermine(TailOf(a), TailOf(b));
    hide SameTails, Absorb, Final, UnFinal, Tail, Digest, TailWords;
    var start := State(U32(seed), U32(seed));
    var n := |a| / 16;
    assert |a| - |a| % 16 == 16 * n;
    BlocksSplit(start, a, n);
    BlocksSplit(start, b, n);
    var s := Blocks(start, a[..16 * n]);
    TailDetermines(s, TailOf(a), TailOf(b));
    if Digest(Hash(a, seed)) == Digest(Hash(b, seed)) {
      DigestDeterminesState(Hash(a, seed), Hash(b, seed));
      FinalIsPermutation(Tail(s, TailOf(a)), U32(|a|));
      FinalIsPermutation(Tail(s, TailOf(b)), U32(|b|));
    }
  }

  lemma SameBlockSameKey(a: seq<CodeUnit>, b: seq<CodeUnit>, n: nat)
    requires |a| == |b| && IsBytes(a) && IsBytes(b) && 16 * n + 16 <= |a|
    requires a[..16 * n] == b[..16 * n] && a[16 * n + 16..] == b[16 * n + 16..]
    requires SameLowBytes(a[16 * n..16 * n + 16], b[16 * n..16 * n + 16])
    ensures a == b
  {
    var x, y := a[16 * n..16 * n + 16], b[16 * n..16 * n + 16];
    forall i | 0 <= i < 16 ensures x[i] == y[i] {
      assert x[i] as int % 256 == y[i] as int % 256;
      assert x[i] == a[16 * n + i] && y[i] == b[16 * n + i];
    }
    assert x == y;
    assert a == a[..16 * n] + x + a[16 * n + 16..];
    assert b == b[..16 * n] + y + b[16 * n + 16..];
  }

  lemma SameTailSameKey(a: seq<CodeUnit>, b: seq<CodeUnit>)
    requires |a| == |b| && a[..|a| - |a| % 16] == b[..|b| - |b| % 16] && TailOf(a) == TailOf(b)
    ensures a == b
  {
    var k := |a| - |a| % 16;
    assert a == a[..k] + TailOf(a) && b == b[..k] + TailOf(b);
  }

  /** Strings of byte characters that differ inside one block only, or inside the tail only, never collide. */
  lemma ByteStringsApart(a: seq<CodeUnit>, b: seq<CodeUnit>, n: nat, seed: int)
    requires |a| == |b| && IsBytes(a) && IsBytes(b) && a != b
    requires 16 * n <= |a| && a[..16 * n] == b[..16 * n]
    requires 16 * n + 16 <= |a| ==> a[16 * n + 16..] == b[16 * n + 16..]
    ensures Digest(Hash(a, seed)) != Digest(Hash(b, seed))
  {
    hide Hash, Digest, TailWords, SameTails;
    if 16 * n + 16 <= |a| {
      CollisionInOneBlock(a, b, n, seed);
      var x, y := a[16 * n..16 * n + 16], b[16 * n..16 * n + 16];
      if SameLowBytes(x, y) { SameBlockSameKey(a, b, n); }
    } else {
      assert |a| - |a| % 16 == 16 * n;
      CollisionInTail(a, b, seed);
      TailsDetermine(TailOf(a), TailOf(b));
      ByteTailDetermines(TailOf(a), TailOf(b));
      if TailOf(a) == TailOf(b) { SameTailSameKey(a, b); }
    }
  }

  /** On byte strings of one length up to sixteen the hash is injective. */
  lemma ShortByteStringsNeverCollide(a: seq<CodeUnit>, b: seq<CodeUnit>, seed: int)
    requires |a| == |b| <= 16 && IsBytes(a) && IsBytes(b)
    ensures Digest(Hash(a, seed)) == Digest(Hash(b, seed)) <==> a == b
  {
    if a != b {
      assert a[..0] == b[..0];
      if |a| == 16 { assert a[16..] == b[16..]; }
      ByteStringsApart(a, b, 0, seed);
    }
  }

  const NARROW_BLOCK: seq<CodeUnit> := seq(16, _ => 0x61)
  const WIDE_BLOCK: seq<CodeUnit> := seq(16, _ => 0x161)
  const NARROW_TAIL: seq<CodeUnit> := [0x61, 0x61]
  const WIDE_TAIL: seq<CodeUnit> := [0x161, 0x60]

  /** Beyond byte characters the promise fails in both places: a block masks its characters, and a tail lets the high
      byte of one character overlap the next. */
  lemma WideCharactersCollide(seed: int)
    ensures Digest(Hash(WIDE_BLOCK, seed)) == Digest(Hash(NARROW_BLOCK, seed)) && WIDE_BLOCK != NARROW_BLOCK
    ensures Digest(Hash(WIDE_TAIL, seed)) == Digest(Hash(NARROW_TAIL, seed)) && WIDE_TAIL != NARROW_TAIL
  {
    hide Hash, Digest, TailWord;
    assert WIDE_BLOCK[0] != NARROW_BLOCK[0];
    CollisionInOneBlock(WIDE_BLOCK, NARROW_BLOCK, 0, seed);
    CollisionInTail(WIDE_TAIL, NARROW_TAIL, seed);
    assert TailOf(WIDE_TAIL) == WIDE_TAIL && TailOf(NARROW_TAIL) == NARROW_TAIL;
    TailsOverlap();
  }

  lemma TailsOverlap()
    ensures SameTails(WIDE_TAIL, NARROW_TAIL)
  {
    SmallXors();
    hide BitXor;
    forall i: nat | i <= 2 ensures TailByte(WIDE_TAIL, i) == TailByte(NARROW_TAIL, i) {
      assert i == 0 || i == 1 || i == 2;
    }
  }

  lemma SmallXors()
    ensures BitXor(0x60, 1) == 0x61 == BitXor(0x61, 0) && BitXor(0, 0) == 0
  {
    hide BitXor;
    XorStep(0x60, 1);
    XorZero(0x30);
    XorZero(0x61);
    XorZero(0);
  }
}
