/** The 128-bit MurmurHash3 of a string, as the fingerprint library computes it.

    A string is the sequence of its UTF-16 code units.  The hash is first described on 64-bit numbers (`Hash`), and the
    loop over pairs of 32-bit words is proved to compute it.  `Load` and `TailWord` say how characters become words. */
module Murmur {
  import opened JsNumber
  import opened X64

  datatype State = State(h1: uint64, h2: uint64)

  const C1: uint64 := 0x87c3_7b91_1142_53d5
  const C2: uint64 := 0x4cf5_ad43_2745_937f
  const F1: uint64 := 0xff51_afd7_ed55_8ccd
  const F2: uint64 := 0xc4ce_b9fe_1a85_ec53

  // ---------------------------------------------------------------- the hash on 64-bit numbers

  function XorShift33(h: uint64): uint64
  {
    assert 0 <= High(h, 33) < 0x1_0000_0000_0000_0000 by { HighSmaller(h, 33); }
    Xor64(h, High(h, 33))
  }

  function Fmix(h: uint64): uint64
  {
    XorShift33(Mul64(XorShift33(Mul64(XorShift33(h), F1)), F2))
  }

  function Mix1(k: uint64): uint64
  {
    Mul64(Rotl64(Mul64(k, C1), 31), C2)
  }

  function Mix2(k: uint64): uint64
  {
    Mul64(Rotl64(Mul64(k, C2), 33), C1)
  }

  function Stir1(h1: uint64, h2: uint64, k1: uint64): uint64
  {
    Add64(Mul64(Add64(Rotl64(Xor64(h1, Mix1(k1)), 27), h2), 5), 0x52dc_e729)
  }

  function Stir2(h2: uint64, h1: uint64, k2: uint64): uint64
  {
    Add64(Mul64(Add64(Rotl64(Xor64(h2, Mix2(k2)), 31), h1), 5), 0x3849_5ab5)
  }

  function Block(s: State, k1: uint64, k2: uint64): State
  {
    var h1 := Stir1(s.h1, s.h2, k1);
    State(h1, Stir2(s.h2, h1, k2))
  }

  // The low bytes of the characters as a little-endian number.
  function LittleEndian(s: seq<int>): (w: nat)
    ensures w < Pow2(8 * |s|)
  {
    if s == [] then 0
    else
      Pow2Add(8, 8 * |s| - 8);
      s[0] % 256 + 256 * LittleEndian(s[1..])
  }

  // Eight characters as one word.
  function Load(s: seq<int>): uint64
    requires |s| == 8
  {
    Pow2Values();
    LittleEndian(s)
  }

  // The characters of the tail from position i on, each xor-ed in at its byte position, none of them masked.
  function TailWord(s: seq<CodeUnit>, i: nat): uint64
    requires |s| <= 8
    decreases 8 - i
  {
    if i >= |s| then 0 else Xor64(TailWord(s, i + 1), Shl64(s[i], 8 * i))
  }

  function Absorb(s: State, chars: seq<CodeUnit>): State
    requires |chars| == 16
  {
    Block(s, Load(chars[..8]), Load(chars[8..]))
  }

  function Blocks(s: State, key: seq<CodeUnit>): State
    decreases |key|
  {
    if |key| < 16 then s else Blocks(Absorb(s, key[..16]), key[16..])
  }

  function Tail(s: State, tail: seq<CodeUnit>): State
    requires |tail| < 16
  {
    if |tail| == 0 then s
    else if |tail| <= 8 then State(Xor64(s.h1, Mix1(TailWord(tail, 0))), s.h2)
    else State(Xor64(s.h1, Mix1(TailWord(tail[..8], 0))), Xor64(s.h2, Mix2(TailWord(tail[8..], 0))))
  }

  function Final(s: State, length: uint64): State
  {
    var h1 := Add64(Xor64(s.h1, length), Xor64(s.h2, length));
    var h2 := Add64(Xor64(s.h2, length), h1);
    var f1, f2 := Fmix(h1), Fmix(h2);
    var r1 := Add64(f1, f2);
    State(r1, Add64(f2, r1))
  }

  function TailOf(key: seq<CodeUnit>): seq<CodeUnit>
  {
    key[|key| - |key| % 16..]
  }

  function Hash(key: seq<CodeUnit>, seed: int): State
  {
    var start := State(U32(seed), U32(seed));
    Final(Tail(Blocks(start, key), TailOf(key)), U32(|key|))
  }

  // ---------------------------------------------------------------- hexadecimal output

  // Number.prototype.toString(16)
  function ToString16(x: nat): string
  {
    if x < 16 then [HexDigit(x)] else ToString16(x / 16) + [HexDigit(x % 16)]
  }

  // ('00000000' + (x >>> 0).toString(16)).slice(-8)
  function HexWord(x: uint32): string
  {
    var s := "00000000" + ToString16(x);
    s[|s| - 8..]
  }

  function Digest(s: State): string
  {
    HexWord(s.h1 / 0x1_0000_0000) + HexWord(s.h1 % 0x1_0000_0000)
    + HexWord(s.h2 / 0x1_0000_0000) + HexWord(s.h2 % 0x1_0000_0000)
  }

  // ---------------------------------------------------------------- the code

  method X64Fmix(h: Word64) returns (r: Word64)
    ensures Val(r) == Fmix(Val(h))
  {
    hide Xor64, Mul64, X64Xor, High;
    r := h;
    HalfShift(r);
    X64XorMeans(r, Word64(0, Shr(r.hi, 1)));
    r := X64Xor(r, Word64(0, Shr(r.hi, 1)));
    r := X64Multiply(r, Word64(0xff51_afd7, 0xed55_8ccd));
    HalfShift(r);
    X64XorMeans(r, Word64(0, Shr(r.hi, 1)));
    r := X64Xor(r, Word64(0, Shr(r.hi, 1)));
    r := X64Multiply(r, Word64(0xc4ce_b9fe, 0x1a85_ec53));
    HalfShift(r);
    X64XorMeans(r, Word64(0, Shr(r.hi, 1)));
    r := X64Xor(r, Word64(0, Shr(r.hi, 1)));
  }

  // [0, h[0] >>> 1] is the 33-bit right shift.
  lemma HalfShift(h: Word64)
    ensures Val(Word64(0, Shr(h.hi, 1))) == High(Val(h), 33)
  {
    hide Glue;
    ValIsGlue(h);
    HighHigh(Val(h), 32, 1);
    GlueParts(U32(h.hi), 32, U32(h.lo));
    HighSmaller(U32(h.hi), 1);
  }

  // (c0 & 0xff) | ((c1 & 0xff) << 8) | ((c2 & 0xff) << 16) | ((c3 & 0xff) << 24)
  function Pack(c0: int, c1: int, c2: int, c3: int): int
  {
    Or(Or(Or(And(c0, 0xff), Shl(And(c1, 0xff), 8)), Shl(And(c2, 0xff), 16)), Shl(And(c3, 0xff), 24))
  }

  lemma PackMeans(s: seq<CodeUnit>)
    requires |s| == 4
    ensures U32(Pack(s[0], s[1], s[2], s[3])) == LittleEndian(s)
  {
    hide Or, Shl, And, U32, BitOr, LittleEndian;
    forall c | c in s ensures And(c, 0xff) == c % 256 {
      Masks(c);
      CodeUnitSmall(c);
    }
    var b0, b1, b2, b3 := s[0] as int % 256, s[1] as int % 256, s[2] as int % 256, s[3] as int % 256;
    PlaceByte(b0, 0, 1);
    PlaceByte(b1, 8, 0x100);
    PlaceByte(b2, 16, 0x1_0000);
    PlaceByte(b3, 24, 0x100_0000);
    Small(b0);
    U32Or(b0, Shl(b1, 8));
    OrIsSum(b1, b0, 8, 0x100);
    var r := Or(b0, Shl(b1, 8));
    U32Or(r, Shl(b2, 16));
    OrIsSum(b2, b1 * 0x100 + b0, 16, 0x1_0000);
    var t := Or(r, Shl(b2, 16));
    U32Or(t, Shl(b3, 24));
    OrIsSum(b3, b2 * 0x1_0000 + (b1 * 0x100 + b0), 24, 0x100_0000);
    FourBytes(s);
  }

  lemma CodeUnitSmall(c: CodeUnit)
    ensures U32(c) == c
  {
  }

  lemma PlaceByte(b: nat, n: nat, p: nat)
    requires b < 256 && n <= 24
    requires (n == 0 && p == 1) || (n == 8 && p == 0x100) || (n == 16 && p == 0x1_0000) || (n == 24 && p == 0x100_0000)
    ensures U32(Shl(b, n)) == b * p && Pow2(n) == p
  {
    Pow2Values();
    ShlIs(b, n, p);
    assert U32(b) == b;
  }

  lemma FourBytes(s: seq<int>)
    requires |s| == 4
    ensures LittleEndian(s)
      == s[3] % 256 * 0x100_0000 + (s[2] % 256 * 0x1_0000 + (s[1] % 256 * 0x100 + s[0] % 256))
  {
    var t := s[1..];
    var u := t[1..];
    var v := u[1..];
    assert v[1..] == [];
  }

  lemma {:induction false} LittleEndianAppend(s: seq<int>, t: seq<int>)
    ensures LittleEndian(s + t) == Glue(LittleEndian(t), 8 * |s|, LittleEndian(s))
  {
    if s == [] {
      assert s + t == t;
    } else {
      assert (s + t)[1..] == s[1..] + t;
      LittleEndianAppend(s[1..], t);
      Pow2Values();
      Pow2Add(8, 8 * |s| - 8);
      MulAssoc(LittleEndian(t), 256, Pow2(8 * |s| - 8));
    }
  }

  lemma LoadMeans(s: seq<CodeUnit>)
    requires |s| == 8
    ensures Val(Word64(Pack(s[4], s[5], s[6], s[7]), Pack(s[0], s[1], s[2], s[3]))) == Load(s)
  {
    hide Pack, LittleEndian, Glue;
    var lo, hi := s[..4], s[4..];
    assert s == lo + hi;
    PackMeans(lo);
    PackMeans(hi);
    LittleEndianAppend(lo, hi);
    ValIsGlue(Word64(Pack(s[4], s[5], s[6], s[7]), Pack(s[0], s[1], s[2], s[3])));
  }

  // One line of the fall-through tail.
  lemma TailStep(t: seq<CodeUnit>, j: nat, k: Word64)
    requires j < |t| <= 8 && Val(k) == TailWord(t, j + 1)
    ensures Val(X64Xor(k, X64LeftShift(Word64(0, t[j]), 8 * j))) == TailWord(t, j)
    ensures j == 0 ==> X64LeftShift(Word64(0, t[j]), 8 * j) == Word64(0, t[j])
  {
    hide Xor64, Shl64, X64Xor, X64LeftShift, Val;
    CharacterWord(t[j]);
    X64LeftShiftMeans(Word64(0, t[j]), 8 * j);
    X64XorMeans(k, X64LeftShift(Word64(0, t[j]), 8 * j));
    if j == 0 { NoShift(Word64(0, t[j])); }
  }

  lemma CharacterWord(c: CodeUnit)
    ensures Val(Word64(0, c)) == c
  {
  }

  lemma NoShift(m: Word64)
    ensures X64LeftShift(m, 0) == m
  {
  }

  method TailK2(key: seq<CodeUnit>, i: nat, remainder: nat) returns (k2: Word64)
    requires 9 <= remainder < 16 && i + remainder == |key|
    ensures Val(k2) == TailWord(key[i + 8..], 0)
  {
    hide TailWord, X64Xor, X64LeftShift, Val;
    ghost var t := key[i + 8..];
    k2 := Word64(0, 0);
    NoTail(t, 7);
    if remainder >= 15 {
      TailStep(t, 6, k2);
      k2 := X64Xor(k2, X64LeftShift(Word64(0, key[i + 14]), 48));
    } else { NoTail(t, 6); }
    if remainder >= 14 {
      TailStep(t, 5, k2);
      k2 := X64Xor(k2, X64LeftShift(Word64(0, key[i + 13]), 40));
    } else { NoTail(t, 5); }
    if remainder >= 13 {
      TailStep(t, 4, k2);
      k2 := X64Xor(k2, X64LeftShift(Word64(0, key[i + 12]), 32));
    } else { NoTail(t, 4); }
    if remainder >= 12 {
      TailStep(t, 3, k2);
      k2 := X64Xor(k2, X64LeftShift(Word64(0, key[i + 11]), 24));
    } else { NoTail(t, 3); }
    if remainder >= 11 {
      TailStep(t, 2, k2);
      k2 := X64Xor(k2, X64LeftShift(Word64(0, key[i + 10]), 16));
    } else { NoTail(t, 2); }
    if remainder >= 10 {
      TailStep(t, 1, k2);
      k2 := X64Xor(k2, X64LeftShift(Word64(0, key[i + 9]), 8));
    } else { NoTail(t, 1); }
    TailStep(t, 0, k2);
    k2 := X64Xor(k2, Word64(0, key[i + 8]));
  }

  lemma NoTail(t: seq<CodeUnit>, j: nat)
    requires |t| <= j && |t| <= 8
    ensures TailWord(t, j) == 0 == Val(Word64(0, 0))
  {
  }

  method TailK1(key: seq<CodeUnit>, i: nat, remainder: nat) returns (k1: Word64)
    requires 1 <= remainder < 16 && i + remainder == |key|
    ensures Val(k1) == TailWord(if remainder <= 8 then key[i..] else key[i..i + 8], 0)
  {
    hide TailWord, X64Xor, X64LeftShift, Val;
    ghost var t := if remainder <= 8 then key[i..] else key[i..i + 8];
    k1 := Word64(0, 0);
    NoTail(t, 8);
    if remainder >= 8 {
      TailStep(t, 7, k1);
      k1 := X64Xor(k1, X64LeftShift(Word64(0, key[i + 7]), 56));
    } else { NoTail(t, 7); }
    if remainder >= 7 {
      TailStep(t, 6, k1);
      k1 := X64Xor(k1, X64LeftShift(Word64(0, key[i + 6]), 48));
    } else { NoTail(t, 6); }
    if remainder >= 6 {
      TailStep(t, 5, k1);
      k1 := X64Xor(k1, X64LeftShift(Word64(0, key[i + 5]), 40));
    } else { NoTail(t, 5); }
    if remainder >= 5 {
      TailStep(t, 4, k1);
      k1 := X64Xor(k1, X64LeftShift(Word64(0, key[i + 4]), 32));
    } else { NoTail(t, 4); }
    if remainder >= 4 {
      TailStep(t, 3, k1);
      k1 := X64Xor(k1, X64LeftShift(Word64(0, key[i + 3]), 24));
    } else { NoTail(t, 3); }
    if remainder >= 3 {
      TailStep(t, 2, k1);
      k1 := X64Xor(k1, X64LeftShift(Word64(0, key[i + 2]), 16));
    } else { NoTail(t, 2); }
    if remainder >= 2 {
      TailStep(t, 1, k1);
      k1 := X64Xor(k1, X64LeftShift(Word64(0, key[i + 1]), 8));
    } else { NoTail(t, 1); }
    TailStep(t, 0, k1);
    k1 := X64Xor(k1, Word64(0, key[i]));
  }

  const K1: Word64 := Word64(0x87c3_7b91, 0x1142_53d5)
  const K2: Word64 := Word64(0x4cf5_ad43, 0x2745_937f)

  method MixK1(k: Word64) returns (r: Word64)
    ensures Val(r) == Mix1(Val(k))
  {
    hide Mul64, Rotl64, X64Rotl;
    r := X64Multiply(k, K1);
    X64RotlMeans(r, 31);
    r := X64Rotl(r, 31);
    r := X64Multiply(r, K2);
  }

  method MixK2(k: Word64) returns (r: Word64)
    ensures Val(r) == Mix2(Val(k))
  {
    hide Mul64, Rotl64, X64Rotl;
    r := X64Multiply(k, K2);
    X64RotlMeans(r, 33);
    r := X64Rotl(r, 33);
    r := X64Multiply(r, K1);
  }

  // The body of the block loop.
  method AbsorbBlock(h1: Word64, h2: Word64, c: seq<CodeUnit>) returns (r1: Word64, r2: Word64)
    requires |c| == 16
    ensures State(Val(r1), Val(r2)) == Absorb(State(Val(h1), Val(h2)), c)
  {
    hide Mix1, Mix2, Mul64, Rotl64, Add64, Xor64, X64Rotl, X64Xor, Load, Pack;
    var k1 := Word64(Pack(c[4], c[5], c[6], c[7]), Pack(c[0], c[1], c[2], c[3]));
    var k2 := Word64(Pack(c[12], c[13], c[14], c[15]), Pack(c[8], c[9], c[10], c[11]));
    LoadMeans(c[..8]);
    LoadMeans(c[8..]);
    k1 := MixK1(k1);
    X64XorMeans(h1, k1);
    r1 := X64Xor(h1, k1);
    X64RotlMeans(r1, 27);
    r1 := X64Rotl(r1, 27);
    r1 := X64Add(r1, h2);
    r1 := X64Multiply(r1, Word64(0, 5));
    r1 := X64Add(r1, Word64(0, 0x52dc_e729));
    k2 := MixK2(k2);
    X64XorMeans(h2, k2);
    r2 := X64Xor(h2, k2);
    X64RotlMeans(r2, 31);
    r2 := X64Rotl(r2, 31);
    r2 := X64Add(r2, r1);
    r2 := X64Multiply(r2, Word64(0, 5));
    r2 := X64Add(r2, Word64(0, 0x3849_5ab5));
  }

  // The finaliser, from the length xor on.
  method Finish(h1: Word64, h2: Word64, length: nat) returns (r1: Word64, r2: Word64)
    ensures State(Val(r1), Val(r2)) == Final(State(Val(h1), Val(h2)), U32(length))
  {
    hide Fmix, Add64, Xor64, X64Xor, U32;
    LengthWord(length);
    X64XorMeans(h1, Word64(0, length));
    X64XorMeans(h2, Word64(0, length));
    r1 := X64Xor(h1, Word64(0, length));
    r2 := X64Xor(h2, Word64(0, length));
    r1 := X64Add(r1, r2);
    r2 := X64Add(r2, r1);
    r1 := X64Fmix(r1);
    r2 := X64Fmix(r2);
    r1 := X64Add(r1, r2);
    r2 := X64Add(r2, r1);
  }

  lemma LengthWord(x: int)
    ensures Val(Word64(0, x)) == U32(x)
  {
  }

  method X64Hash128(key: seq<CodeUnit>, seed: int) returns (digest: string)
    ensures digest == Digest(Hash(key, seed))
  {
    hide Mix1, Mix2, Absorb, Final, Xor64, TailWord, X64Xor, HexWord, U32;
    var remainder := |key| % 16;
    var bytes := |key| - remainder;
    var h1, h2 := Word64(0, seed), Word64(0, seed);
    LengthWord(seed);
    ghost var start := State(U32(seed), U32(seed));
    assert key[0..] == key;
    var i := 0;
    while i < bytes
      invariant 0 <= i <= bytes && i % 16 == 0
      invariant Blocks(State(Val(h1), Val(h2)), key[i..]) == Blocks(start, key)
    {
      ghost var rest := key[i..];
      assert key[i..i + 16] == rest[..16] && key[i + 16..] == rest[16..];
      h1, h2 := AbsorbBlock(h1, h2, key[i..i + 16]);
      i := i + 16;
    }
    ghost var tail := key[i..];
    assert TailOf(key) == tail;
    if remainder >= 9 {
      assert tail[8..] == key[i + 8..];
      var k2 := TailK2(key, i, remainder);
      k2 := MixK2(k2);
      X64XorMeans(h2, k2);
      h2 := X64Xor(h2, k2);
    }
    if remainder >= 1 {
      assert remainder > 8 ==> tail[..8] == key[i..i + 8];
      var k1 := TailK1(key, i, remainder);
      k1 := MixK1(k1);
      X64XorMeans(h1, k1);
      h1 := X64Xor(h1, k1);
    }
    h1, h2 := Finish(h1, h2, |key|);
    WordHalves(h1);
    WordHalves(h2);
    digest := HexWord(U32(h1.hi)) + HexWord(U32(h1.lo)) + HexWord(U32(h2.hi)) + HexWord(U32(h2.lo));
  }

  lemma WordHalves(w: Word64)
    ensures Val(w) / 0x1_0000_0000 == U32(w.hi) && Val(w) % 0x1_0000_0000 == U32(w.lo)
  {
    hide U32;
  }
}
