/** Bit patterns of known numbers.

    `BitAnd`, `BitOr` and `BitXor` work digit by digit, which is long for a known 32-bit word.  Here they are related to
    the operators of bit vectors, byte by byte; on those the verifier computes.  The known digests are worked out so. */
module BitVectors {
  import opened JsNumber
  import opened X64

  datatype Operator = Conjunction | Disjunction | Difference

  function OnNats(op: Operator, a: nat, b: nat): nat
  {
    match op
    case Conjunction => BitAnd(a, b)
    case Disjunction => BitOr(a, b)
    case Difference => BitXor(a, b)
  }

  // ---------------------------------------------------------------- bytes

  function And8(a: bv8, b: bv8): bv8 { a & b }

  function Or8(a: bv8, b: bv8): bv8 { a | b }

  function Xor8(a: bv8, b: bv8): bv8 { a ^ b }

  function OnBytes(op: Operator, a: bv8, b: bv8): bv8
  {
    match op
    case Conjunction => And8(a, b)
    case Disjunction => Or8(a, b)
    case Difference => Xor8(a, b)
  }

  function Nat8(a: bv8): (n: nat)
    ensures n < 256
  {
    a as nat
  }

  function Half(a: bv8): bv8
  {
    a >> 1
  }

  predicate Odd(a: bv8)
  {
    a & 1 == 1
  }

  lemma HalfIs(a: bv8)
    ensures Nat8(Half(a)) == Nat8(a) / 2 && (Odd(a) <==> Nat8(a) % 2 == 1)
  {
    assert a as nat == 2 * ((a >> 1) as nat) + (a & 1) as nat;
  }

  predicate OnBits(op: Operator, a: bool, b: bool)
  {
    match op
    case Conjunction => a && b
    case Disjunction => a || b
    case Difference => a != b
  }

  lemma BitsOfAnd(a: bv8, b: bv8)
    ensures Half(And8(a, b)) == And8(Half(a), Half(b)) && (Odd(And8(a, b)) <==> Odd(a) && Odd(b))
  {
  }

  lemma BitsOfOr(a: bv8, b: bv8)
    ensures Half(Or8(a, b)) == Or8(Half(a), Half(b)) && (Odd(Or8(a, b)) <==> Odd(a) || Odd(b))
  {
  }

  lemma BitsOfXor(a: bv8, b: bv8)
    ensures Half(Xor8(a, b)) == Xor8(Half(a), Half(b)) && (Odd(Xor8(a, b)) <==> Odd(a) != Odd(b))
  {
  }

  lemma BitsOfBytes(op: Operator, a: bv8, b: bv8)
    ensures Half(OnBytes(op, a, b)) == OnBytes(op, Half(a), Half(b))
    ensures Odd(OnBytes(op, a, b)) <==> OnBits(op, Odd(a), Odd(b))
  {
    hide Half, Odd, And8, Or8, Xor8;
    match op
    case Conjunction => BitsOfAnd(a, b);
    case Disjunction => BitsOfOr(a, b);
    case Difference => BitsOfXor(a, b);
  }

  lemma BitsOfNats(op: Operator, a: nat, b: nat)
    ensures OnNats(op, a, b) / 2 == OnNats(op, a / 2, b / 2)
    ensures OnNats(op, a, b) % 2 == 1 <==> OnBits(op, a % 2 == 1, b % 2 == 1)
  {
    AndStep(a, b);
    OrStep(a, b);
    XorStep(a, b);
  }

  lemma OnZeros(op: Operator, a: bv8, b: bv8)
    requires Nat8(a) == 0 && Nat8(b) == 0
    ensures OnNats(op, Nat8(a), Nat8(b)) == Nat8(OnBytes(op, a, b)) == 0
  {
    assert a == 0 && b == 0;
  }

  lemma {:induction false} BytesMean(op: Operator, a: bv8, b: bv8)
    ensures OnNats(op, Nat8(a), Nat8(b)) == Nat8(OnBytes(op, a, b))
    decreases Nat8(a) + Nat8(b)
  {
    hide *;
    if Nat8(a) == 0 && Nat8(b) == 0 {
      OnZeros(op, a, b);
    } else {
      var c := OnBytes(op, a, b);
      HalfIs(a);
      HalfIs(b);
      HalfIs(c);
      BitsOfBytes(op, a, b);
      BitsOfNats(op, Nat8(a), Nat8(b));
      BytesMean(op, Half(a), Half(b));
    }
  }

  // ---------------------------------------------------------------- words

  function And32(v: bv32, w: bv32): bv32 { v & w }

  function Or32(v: bv32, w: bv32): bv32 { v | w }

  function Xor32(v: bv32, w: bv32): bv32 { v ^ w }

  function OnWords(op: Operator, v: bv32, w: bv32): bv32
  {
    match op
    case Conjunction => And32(v, w)
    case Disjunction => Or32(v, w)
    case Difference => Xor32(v, w)
  }

  // Bytes 0 to 3 of a word.
  function Byte(w: bv32, i: nat): bv8
    requires i < 4
  {
    if i == 0 then (w & 0xff) as bv8
    else if i == 1 then ((w >> 8) & 0xff) as bv8
    else if i == 2 then ((w >> 16) & 0xff) as bv8
    else (w >> 24) as bv8
  }

  function FromBytes(a: nat, b: nat, c: nat, d: nat): uint32
    requires a < 256 && b < 256 && c < 256 && d < 256
  {
    ((a * 0x100 + b) * 0x100 + c) * 0x100 + d
  }

  function Nat32(w: bv32): uint32
  {
    FromBytes(Nat8(Byte(w, 3)), Nat8(Byte(w, 2)), Nat8(Byte(w, 1)), Nat8(Byte(w, 0)))
  }

  lemma BytesOfAnd(v: bv32, w: bv32, i: nat)
    requires i < 4
    ensures Byte(And32(v, w), i) == And8(Byte(v, i), Byte(w, i))
  {
    if i == 0 {} else if i == 1 {} else if i == 2 {} else {}
  }

  lemma BytesOfOr(v: bv32, w: bv32, i: nat)
    requires i < 4
    ensures Byte(Or32(v, w), i) == Or8(Byte(v, i), Byte(w, i))
  {
    if i == 0 {} else if i == 1 {} else if i == 2 {} else {}
  }

  lemma BytesOfXor(v: bv32, w: bv32, i: nat)
    requires i < 4
    ensures Byte(Xor32(v, w), i) == Xor8(Byte(v, i), Byte(w, i))
  {
    if i == 0 {} else if i == 1 {} else if i == 2 {} else {}
  }

  lemma BytesOfWords(op: Operator, v: bv32, w: bv32, i: nat)
    requires i < 4
    ensures Byte(OnWords(op, v, w), i) == OnBytes(op, Byte(v, i), Byte(w, i))
  {
    hide Byte, And8, Or8, Xor8, And32, Or32, Xor32;
    match op
    case Conjunction => BytesOfAnd(v, w, i);
    case Disjunction => BytesOfOr(v, w, i);
    case Difference => BytesOfXor(v, w, i);
  }

  lemma NextByte(op: Operator, a: nat, b: nat, c: nat, d: nat)
    requires b < 256 && d < 256
    ensures OnNats(op, a * 0x100 + b, c * 0x100 + d) == OnNats(op, a, c) * 0x100 + OnNats(op, b, d)
  {
    hide BitAnd, BitOr, BitXor;
    Pow2Values();
    AndSplit(a, b, c, d, 8);
    OrSplit(a, b, c, d, 8);
    XorSplit(a, b, c, d, 8);
  }

  lemma ByteMeans(op: Operator, v: bv32, w: bv32, i: nat)
    requires i < 4
    ensures OnNats(op, Nat8(Byte(v, i)), Nat8(Byte(w, i))) == Nat8(Byte(OnWords(op, v, w), i))
  {
    hide *;
    BytesOfWords(op, v, w, i);
    BytesMean(op, Byte(v, i), Byte(w, i));
  }

  lemma WordsMean(op: Operator, v: bv32, w: bv32)
    ensures OnNats(op, Nat32(v), Nat32(w)) == Nat32(OnWords(op, v, w))
  {
    hide OnNats, OnWords, Byte, Nat8;
    var v0, v1, v2, v3 := Nat8(Byte(v, 0)), Nat8(Byte(v, 1)), Nat8(Byte(v, 2)), Nat8(Byte(v, 3));
    var w0, w1, w2, w3 := Nat8(Byte(w, 0)), Nat8(Byte(w, 1)), Nat8(Byte(w, 2)), Nat8(Byte(w, 3));
    ByteMeans(op, v, w, 0);
    ByteMeans(op, v, w, 1);
    ByteMeans(op, v, w, 2);
    ByteMeans(op, v, w, 3);
    NextByte(op, v3, v2, w3, w2);
    NextByte(op, v3 * 0x100 + v2, v1, w3 * 0x100 + w2, w1);
    NextByte(op, (v3 * 0x100 + v2) * 0x100 + v1, v0, (w3 * 0x100 + w2) * 0x100 + w1, w0);
  }

  function Not32(v: bv32): bv32
  {
    !v
  }

  lemma NotByte(v: bv32, i: nat)
    requires i < 4
    ensures Nat8(Byte(Not32(v), i)) == 255 - Nat8(Byte(v, i))
  {
    BytesOfNot(v, i);
    hide *;
    Complement8(Byte(v, i));
  }

  function Not8(a: bv8): bv8
  {
    !a
  }

  lemma BytesOfNot(v: bv32, i: nat)
    requires i < 4
    ensures Byte(Not32(v), i) == Not8(Byte(v, i))
  {
    if i == 0 {} else if i == 1 {} else if i == 2 {} else {}
  }

  lemma Complement8(a: bv8)
    ensures Nat8(Not8(a)) == 255 - Nat8(a)
  {
  }

  lemma NotMeans(v: bv32)
    ensures Nat32(Not32(v)) == 0xffff_ffff - Nat32(v)
  {
    hide Byte, Nat8, Not32;
    NotByte(v, 0);
    NotByte(v, 1);
    NotByte(v, 2);
    NotByte(v, 3);
  }

  // ---------------------------------------------------------------- sums

  function Nat16(x: bv16): nat
  {
    x as nat
  }

  function Half16(x: bv16): bv16
  {
    x >> 1
  }

  function Last16(x: bv16): bv16
  {
    x & 1
  }

  function Sum16(x: bv16, y: bv16, c: bv16): bv16
  {
    x + y + c
  }

  function Wide(a: bv8): bv16
  {
    a as bv16
  }

  predicate IsByte(x: bv16)
  {
    x < 0x100
  }

  predicate IsBit(x: bv16)
  {
    x < 2
  }

  predicate IsSum(x: bv16)
  {
    x < 0x200
  }

  // The carry out of the last digits.
  function Carry(x: bv16, y: bv16, c: bv16): bv16
  {
    ((x & 1) + (y & 1) + (c & 1)) >> 1
  }

  lemma Half16Is(x: bv16)
    requires IsSum(x)
    ensures Nat16(x) == 2 * Nat16(Half16(x)) + Nat16(Last16(x)) && Nat16(Last16(x)) <= 1
  {
  }

  lemma HalfOfSum(x: bv16, y: bv16, c: bv16)
    requires IsByte(x) && IsByte(y) && IsBit(c)
    ensures Half16(Sum16(x, y, c)) == Sum16(Half16(x), Half16(y), Carry(x, y, c)) && IsBit(Carry(x, y, c))
    ensures IsByte(Half16(x)) && IsByte(Half16(y)) && IsSum(x) && IsSum(y) && IsSum(Sum16(x, y, c))
  {
  }

  lemma LastOfSum(x: bv16, y: bv16, c: bv16)
    requires IsByte(x) && IsByte(y) && IsBit(c)
    ensures Nat16(Last16(Sum16(x, y, c))) + 2 * Nat16(Carry(x, y, c)) == Nat16(Last16(x)) + Nat16(Last16(y)) + Nat16(c)
  {
    assert c == 0 || c == 1;
    assert x & 1 == 0 || x & 1 == 1;
    assert y & 1 == 0 || y & 1 == 1;
    assert (x + y + c) & 1 == ((x & 1) + (y & 1) + c) & 1;
  }

  lemma SumOfZeros(x: bv16, y: bv16, c: bv16)
    requires Nat16(x) == 0 && Nat16(y) == 0
    ensures Sum16(x, y, c) == c
  {
    assert x == 0 && y == 0;
  }

  lemma {:induction false} SumIs(x: bv16, y: bv16, c: bv16, n: nat)
    requires IsByte(x) && IsByte(y) && IsBit(c) && Nat16(x) < Pow2(n) && Nat16(y) < Pow2(n)
    ensures IsSum(Sum16(x, y, c)) && Nat16(Sum16(x, y, c)) == Nat16(x) + Nat16(y) + Nat16(c)
    decreases n
  {
    hide Nat16, Half16, Last16, Sum16, Carry, IsByte, IsBit, IsSum;
    HalfOfSum(x, y, c);
    if n == 0 {
      SumOfZeros(x, y, c);
    } else {
      LastOfSum(x, y, c);
      Half16Is(x);
      Half16Is(y);
      Half16Is(Sum16(x, y, c));
      SumIs(Half16(x), Half16(y), Carry(x, y, c), n - 1);
    }
  }

  function Over(x: bv16): bv16
  {
    x >> 8
  }

  function Lowest(x: bv16): bv8
  {
    (x & 0xff) as bv8
  }

  lemma WideIs(a: bv8)
    ensures Nat16(Wide(a)) == Nat8(a) && IsByte(Wide(a))
  {
  }

  lemma OverIs(x: bv16)
    requires IsSum(x)
    ensures Nat16(x) == 0x100 * Nat16(Over(x)) + Nat8(Lowest(x)) && IsBit(Over(x)) && Nat16(Over(x)) < 2
  {
  }

  function Add32(v: bv32, w: bv32): bv32
  {
    v + w
  }

  // Two bytes and the carry of the sum below.
  function ByteSum(a: bv8, b: bv8, c: bv16): bv16
  {
    Sum16(Wide(a), Wide(b), Over(c))
  }

  // The sums of bytes 0 to 3 with their carries.
  function Sum0(v: bv32, w: bv32): bv16
  {
    ByteSum(Byte(v, 0), Byte(w, 0), 0)
  }

  function Sum1(v: bv32, w: bv32): bv16
  {
    ByteSum(Byte(v, 1), Byte(w, 1), Sum0(v, w))
  }

  function Sum2(v: bv32, w: bv32): bv16
  {
    ByteSum(Byte(v, 2), Byte(w, 2), Sum1(v, w))
  }

  function Sum3(v: bv32, w: bv32): bv16
  {
    ByteSum(Byte(v, 3), Byte(w, 3), Sum2(v, w))
  }

  lemma Byte0OfSum(v: bv32, w: bv32)
    ensures Byte(Add32(v, w), 0) == Lowest(Sum0(v, w))
  {
  }

  lemma Byte1OfSum(v: bv32, w: bv32)
    ensures Byte(Add32(v, w), 1) == Lowest(Sum1(v, w))
  {
  }

  // The carry out of the low two bytes, and out of the low three.
  function Carry16(v: bv32, w: bv32): bv16
  {
    (((v & 0xffff) + (w & 0xffff)) >> 16) as bv16
  }

  function Carry24(v: bv32, w: bv32): bv16
  {
    (((v & 0xff_ffff) + (w & 0xff_ffff)) >> 24) as bv16
  }

  lemma Carry16Is(v: bv32, w: bv32)
    ensures Over(Sum1(v, w)) == Carry16(v, w)
  {
  }

  lemma Byte2IsSum(v: bv32, w: bv32, c: bv16)
    requires c == Carry16(v, w)
    ensures Byte(Add32(v, w), 2) == Lowest(Sum16(Wide(Byte(v, 2)), Wide(Byte(w, 2)), c))
    ensures Over(Sum16(Wide(Byte(v, 2)), Wide(Byte(w, 2)), c)) == Carry24(v, w)
  {
  }

  lemma Byte3IsSum(v: bv32, w: bv32, c: bv16)
    requires c == Carry24(v, w)
    ensures Byte(Add32(v, w), 3) == Lowest(Sum16(Wide(Byte(v, 3)), Wide(Byte(w, 3)), c))
  {
  }

  lemma HighBytesOfSum(v: bv32, w: bv32)
    ensures Byte(Add32(v, w), 2) == Lowest(Sum2(v, w)) && Byte(Add32(v, w), 3) == Lowest(Sum3(v, w))
  {
    hide Byte, Add32, Lowest, Over, Sum16, Wide, Sum1, Carry16, Carry24;
    Carry16Is(v, w);
    Byte2IsSum(v, w, Over(Sum1(v, w)));
    Byte3IsSum(v, w, Over(Sum2(v, w)));
  }

  lemma ByteSumIs(a: bv8, b: bv8, c: bv16)
    requires IsSum(c)
    ensures var s := ByteSum(a, b, c);
      IsSum(s) && 0x100 * Nat16(Over(s)) + Nat8(Lowest(s)) == Nat8(a) + Nat8(b) + Nat16(Over(c))
  {
    hide Nat8, Nat16, Wide, Sum16, Over, Lowest, IsByte, IsBit, IsSum, Pow2;
    OverIs(c);
    WideIs(a);
    WideIs(b);
    Pow2Values();
    SumIs(Wide(a), Wide(b), Over(c), 8);
    OverIs(ByteSum(a, b, c));
  }

  lemma NoCarry()
    ensures IsSum(0) && Nat16(Over(0)) == 0
  {
  }

  // Schoolbook addition of four bytes.
  lemma FourSums(a: nat, b: nat, c: nat, d: nat, e: nat, f: nat, g: nat, h: nat, r: nat, s: nat, t: nat, u: nat,
                 k: nat, l: nat, m: nat, n: nat)
    requires a < 256 && b < 256 && c < 256 && d < 256 && e < 256 && f < 256 && g < 256 && h < 256
    requires r < 256 && s < 256 && t < 256 && u < 256
    requires 0x100 * n + u == d + h && 0x100 * m + t == c + g + n && 0x100 * l + s == b + f + m
    requires 0x100 * k + r == a + e + l
    ensures FromBytes(r, s, t, u) == (FromBytes(a, b, c, d) + FromBytes(e, f, g, h)) % 0x1_0000_0000
  {
    ModUnique(FromBytes(a, b, c, d) + FromBytes(e, f, g, h), 0x1_0000_0000, k, FromBytes(r, s, t, u));
  }

  lemma SumsMean(v: bv32, w: bv32)
    ensures Nat32(Add32(v, w)) == (Nat32(v) + Nat32(w)) % 0x1_0000_0000
  {
    hide Byte, Nat8, Nat16, Over, Lowest, ByteSum, Add32, FromBytes, IsSum;
    var s0, s1, s2, s3 := Sum0(v, w), Sum1(v, w), Sum2(v, w), Sum3(v, w);
    Byte0OfSum(v, w);
    Byte1OfSum(v, w);
    HighBytesOfSum(v, w);
    NoCarry();
    ByteSumIs(Byte(v, 0), Byte(w, 0), 0);
    ByteSumIs(Byte(v, 1), Byte(w, 1), s0);
    ByteSumIs(Byte(v, 2), Byte(w, 2), s1);
    ByteSumIs(Byte(v, 3), Byte(w, 3), s2);
    FourSums(Nat8(Byte(v, 3)), Nat8(Byte(v, 2)), Nat8(Byte(v, 1)), Nat8(Byte(v, 0)),
             Nat8(Byte(w, 3)), Nat8(Byte(w, 2)), Nat8(Byte(w, 1)), Nat8(Byte(w, 0)),
             Nat8(Lowest(s3)), Nat8(Lowest(s2)), Nat8(Lowest(s1)), Nat8(Lowest(s0)),
             Nat16(Over(s3)), Nat16(Over(s2)), Nat16(Over(s1)), Nat16(Over(s0)));
  }

  // ---------------------------------------------------------------- rotation by one

  function Once(w: bv32): bv32
  {
    (w << 1) | (w >> 31)
  }

  function TopBit(w: bv32): bv32
  {
    w >> 31
  }

  function Top8(a: bv8): bv8
  {
    a >> 7
  }

  lemma OnceIsSum(w: bv32)
    ensures Once(w) == Add32(Add32(w, w), TopBit(w))
    ensures Byte(TopBit(w), 0) == Top8(Byte(w, 3))
    ensures Byte(TopBit(w), 1) == Byte(TopBit(w), 2) == Byte(TopBit(w), 3) == 0
  {
  }

  lemma Top8Is(a: bv8)
    ensures Nat8(Top8(a)) == Nat8(a) / 0x80 && Nat8(0) == 0
  {
  }

  lemma TopBitIs(w: bv32)
    ensures Nat32(TopBit(w)) == Nat32(w) / 0x8000_0000
  {
    hide Byte, Nat8, Once, TopBit, Add32, FromBytes;
    OnceIsSum(w);
    Top8Is(Byte(w, 3));
    TopOfBytes(Nat8(Byte(w, 3)), Nat8(Byte(w, 2)), Nat8(Byte(w, 1)), Nat8(Byte(w, 0)));
  }

  lemma TopOfBytes(a: nat, b: nat, c: nat, d: nat)
    requires a < 256 && b < 256 && c < 256 && d < 256
    ensures FromBytes(a, b, c, d) / 0x8000_0000 == a / 0x80 == FromBytes(0, 0, 0, a / 0x80)
  {
    var rest := (b * 0x100 + c) * 0x100 + d;
    ModUnique(FromBytes(a, b, c, d), 0x8000_0000, a / 0x80, a % 0x80 * 0x100_0000 + rest);
  }

  lemma OnceMeans(w: bv32)
    ensures Nat32(Once(w)) == Nat32(w) % 0x8000_0000 * 2 + Nat32(w) / 0x8000_0000
  {
    hide Nat32, Once, TopBit, Add32, Byte;
    OnceIsSum(w);
    TopBitIs(w);
    SumsMean(w, w);
    SumsMean(Add32(w, w), TopBit(w));
  }

  // ---------------------------------------------------------------- pairs of words

  function Upper(w: bv64): bv32
  {
    (w >> 32) as bv32
  }

  function Lower(w: bv64): bv32
  {
    (w & 0xffff_ffff) as bv32
  }

  function Nat64(w: bv64): uint64
  {
    Nat32(Upper(w)) * 0x1_0000_0000 + Nat32(Lower(w))
  }

  function Difference64(v: bv64, w: bv64): bv64
  {
    v ^ w
  }

  lemma UpperOfPairs(v: bv64, w: bv64)
    ensures Upper(Difference64(v, w)) == Xor32(Upper(v), Upper(w))
  {
  }

  lemma LowerOfPairs(v: bv64, w: bv64)
    ensures Lower(Difference64(v, w)) == Xor32(Lower(v), Lower(w))
  {
  }

  lemma HalvesOfPairs(v: bv64, w: bv64)
    ensures Upper(Difference64(v, w)) == OnWords(Difference, Upper(v), Upper(w))
    ensures Lower(Difference64(v, w)) == OnWords(Difference, Lower(v), Lower(w))
  {
    hide Upper, Lower, Difference64, Xor32;
    UpperOfPairs(v, w);
    LowerOfPairs(v, w);
  }

  lemma PairsMean(v: bv64, w: bv64)
    ensures Xor64(Nat64(v), Nat64(w)) == Nat64(Difference64(v, w))
  {
    hide BitXor, Nat32, Upper, Lower, Difference64, OnWords;
    HalvesOfPairs(v, w);
    assert Pow2(32) == 0x1_0000_0000 by { Pow2Values(); }
    XorSplit(Nat32(Upper(v)), Nat32(Lower(v)), Nat32(Upper(w)), Nat32(Lower(w)), 32);
    WordsMean(Difference, Upper(v), Upper(w));
    WordsMean(Difference, Lower(v), Lower(w));
  }
}
