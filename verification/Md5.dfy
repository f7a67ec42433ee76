/** The MD5 hasher: 64 unrolled operations a block, a buffer of unprocessed bytes, and the padding. */
module Md5 {
  import opened BitVectors
  import opened JsNumber
  import opened WordArrays
  import opened Md5Spec
  import HexEncoding

  // ---------------------------------------------------------------- one operation

  // a << n | a >>> 32 - n
  function Rotate(x: int, n: nat): int
  {
    Or(Shl(x, n), Shr(x, 32 - n))
  }

  // The four kinds of operation.  Sums are not reduced until a bit operation reads them.
  function OpF(a: int, k: int, b: int, h: int, l: int, j: nat, m: int): int
  {
    Rotate(a + Or(And(k, b), And(Not(k), h)) + l + m, j) + k
  }

  function OpG(a: int, k: int, b: int, h: int, l: int, j: nat, m: int): int
  {
    Rotate(a + Or(And(k, h), And(b, Not(h))) + l + m, j) + k
  }

  function OpH(a: int, k: int, b: int, h: int, l: int, j: nat, m: int): int
  {
    Rotate(a + Xor(Xor(k, b), h) + l + m, j) + k
  }

  function OpI(a: int, k: int, b: int, h: int, l: int, j: nat, m: int): int
  {
    Rotate(a + Xor(b, Or(k, Not(h))) + l + m, j) + k
  }

  lemma NotMeans(x: int)
    ensures U32(Not(x)) == Complement(U32(x))
  {
  }

  lemma RotateMeans(x: int, n: nat)
    requires 0 < n < 32
    ensures U32(Rotate(x, n)) == Rotl(U32(x), n)
  {
    hide Glue, Low, High, Or, Shl, Shr;
    ShiftIn(x, x, n);
    assert U32(U32(Rotate(x, n))) == U32(Rotate(x, n));
  }

  lemma SumMeans(a: int, f: int, l: int, m: int)
    ensures U32(a + f + l + m) == Plus(Plus(Plus(U32(a), U32(f)), U32(l)), U32(m))
  {
    hide U32, Plus;
    AddMeans(a, f);
    AddMeans(a + f, l);
    AddMeans(a + f + l, m);
  }

  lemma AddMeans(x: int, k: int)
    ensures U32(x + k) == Plus(U32(k), U32(x)) == Plus(U32(x), U32(k))
  {
  }

  lemma MixedMeans(k: int, b: int, h: int)
    ensures U32(Or(And(k, b), And(Not(k), h))) == F(U32(k), U32(b), U32(h))
    ensures U32(Or(And(k, h), And(b, Not(h)))) == G(U32(k), U32(b), U32(h))
    ensures U32(Xor(Xor(k, b), h)) == H(U32(k), U32(b), U32(h))
    ensures U32(Xor(b, Or(k, Not(h)))) == I(U32(k), U32(b), U32(h))
  {
    hide And, Or, Xor, Not, BitAnd, BitOr, BitXor, Complement, U32;
    NotMeans(k);
    NotMeans(h);
    U32And(k, b);
    U32And(Not(k), h);
    U32Or(And(k, b), And(Not(k), h));
    U32And(k, h);
    U32And(b, Not(h));
    U32Or(And(k, h), And(b, Not(h)));
    U32Xor(k, b);
    U32Xor(Xor(k, b), h);
    U32Or(k, Not(h));
    U32Xor(b, Or(k, Not(h)));
    Reduced(Or(And(k, b), And(Not(k), h)));
    Reduced(Or(And(k, h), And(b, Not(h))));
    Reduced(Xor(Xor(k, b), h));
    Reduced(Xor(b, Or(k, Not(h))));
  }

  lemma Reduced(x: int)
    ensures U32(U32(x)) == U32(x)
  {
  }

  // The sine table of the code holds the same words as signed numbers.
  function Sine(i: nat): int
    requires i < 64
  {
    I32(Nat32(SINES[i]))
  }

  // The state that variables c, d, e, f hold: operation i writes the one that comes next in turn.
  function Patterns(a: int, b: int, c: int, d: int): Abcd
  {
    Abcd(U32(a), U32(b), U32(c), U32(d))
  }

  function Reduce(x: seq<int>): seq<uint32>
  {
    seq(|x|, i requires 0 <= i < |x| => U32(x[i]))
  }

  // Operation i of the code.
  function Op(i: nat, a: int, k: int, b: int, h: int, l: int, j: nat, m: int): int
  {
    if i < 16 then OpF(a, k, b, h, l, j, m) else if i < 32 then OpG(a, k, b, h, l, j, m)
    else if i < 48 then OpH(a, k, b, h, l, j, m) else OpI(a, k, b, h, l, j, m)
  }

  // ---------------------------------------------------------------- the size of unreduced numbers

  predicate Within(n: nat, x: int)
  {
    -(n * 0x8000_0000) <= x <= n * 0x8000_0000
  }

  // The variables before operation i.  Numbers up to 2^53 are exact in double precision.
  predicate InRange(i: nat, a: int, k: int, b: int, h: int)
  {
    Within(i + 2, a) && Within(i + 2, k) && Within(i + 2, b) && Within(i + 2, h)
  }

  predicate Exact(x: int)
  {
    -0x20_0000_0000_0000 < x < 0x20_0000_0000_0000
  }

  predicate Words32(x: seq<int>)
  {
    forall j :: 0 <= j < |x| ==> Within(1, x[j])
  }

  // What operation i adds to its first operand before the other two.
  function MixedOp(i: nat, k: int, b: int, h: int): int
  {
    if i < 16 then Or(And(k, b), And(Not(k), h)) else if i < 32 then Or(And(k, h), And(b, Not(h)))
    else if i < 48 then Xor(Xor(k, b), h) else Xor(b, Or(k, Not(h)))
  }

  // Every sum of operation i, from left to right, is exact.
  predicate SumsExact(i: nat, a: int, k: int, b: int, h: int, l: int, j: nat, m: int)
  {
    var f := MixedOp(i, k, b, h);
    Exact(a + f) && Exact(a + f + l) && Exact(a + f + l + m) && Exact(Op(i, a, k, b, h, l, j, m))
  }

  lemma BitsWithin(x: int, y: int, n: nat)
    ensures Within(1, Or(x, y)) && Within(1, Xor(x, y)) && Within(1, Rotate(x, n))
  {
    hide BitOr, BitXor, Shl, Shr;
  }

  lemma OpIsExact(i: nat, a: int, k: int, b: int, h: int, l: int, j: nat, m: int)
    requires i < 64 && InRange(i, a, k, b, h) && Within(1, l) && Within(1, m)
    ensures SumsExact(i, a, k, b, h, l, j, m)
    ensures InRange(i + 1, h, Op(i, a, k, b, h, l, j, m), k, b)
  {
    hide And, Or, Xor, Not, Rotate;
    BitsWithin(And(k, b), And(Not(k), h), 0);
    BitsWithin(And(k, h), And(b, Not(h)), 0);
    BitsWithin(Xor(k, b), h, 0);
    BitsWithin(b, Or(k, Not(h)), 0);
    BitsWithin(a + MixedOp(i, k, b, h) + l + m, 0, j);
  }

  /** It performs operation i of the specification, and all its sums are exact: the bound on the variables grows by 2^31
      with each operation. */
  lemma Performs(i: nat, a: int, k: int, b: int, h: int, x: seq<int>, s: Abcd)
    requires i < 64 && |x| == 16 && Words32(x) && InRange(i, a, k, b, h)
    requires Patterns(a, k, b, h) == Operations(i, s, Reduce(x))
    ensures Patterns(h, Op(i, a, k, b, h, x[WordIndex(i)], Shift(i), Sine(i)), k, b) == Operations(i + 1, s, Reduce(x))
    ensures SumsExact(i, a, k, b, h, x[WordIndex(i)], Shift(i), Sine(i))
    ensures InRange(i + 1, h, Op(i, a, k, b, h, x[WordIndex(i)], Shift(i), Sine(i)), k, b)
  {
    hide U32, Plus, WordIndex, Rotl, Mixed, Op, Sine, InRange, SumsExact;
    OpMeans(i, a, k, b, h, x[WordIndex(i)], Shift(i), Sine(i));
    SineWord(i);
    OpIsExact(i, a, k, b, h, x[WordIndex(i)], Shift(i), Sine(i));
  }

  lemma OpMeans(i: nat, a: int, k: int, b: int, h: int, l: int, j: nat, m: int)
    requires i < 64 && 0 < j < 32
    ensures U32(Op(i, a, k, b, h, l, j, m))
      == Plus(U32(k), Rotl(Plus(Plus(Plus(U32(a), Mixed(i, Patterns(a, k, b, h))), U32(l)), U32(m)), j))
  {
    hide And, Or, Xor, Not, F, G, H, I, Rotate, Rotl, U32, Plus;
    MixedMeans(k, b, h);
    var f := if i < 16 then Or(And(k, b), And(Not(k), h)) else if i < 32 then Or(And(k, h), And(b, Not(h)))
             else if i < 48 then Xor(Xor(k, b), h) else Xor(b, Or(k, Not(h)));
    SumMeans(a, f, l, m);
    RotateMeans(a + f + l + m, j);
    AddMeans(Rotate(a + f + l + m, j), k);
  }

  lemma SignedWord(w: uint32)
    ensures U32(I32(w)) == w && Within(1, I32(w))
  {
  }

  lemma SineWord(i: nat)
    requires i < 64
    ensures U32(Sine(i)) == Nat32(SINES[i]) && Within(1, Sine(i))
  {
    hide Nat32, U32, I32, Within;
    SignedWord(Nat32(SINES[i]));
  }

  method Round1(x: seq<int>, c0: int, d0: int, e0: int, f0: int, ghost s: Abcd) returns (c: int, d: int, e: int, f: int)
    requires |x| == 16 && Words32(x) && InRange(0, c0, d0, e0, f0)
    requires Patterns(c0, d0, e0, f0) == Operations(0, s, Reduce(x))
    ensures Patterns(c, d, e, f) == Operations(16, s, Reduce(x)) && InRange(16, c, d, e, f)
  {
    hide OpF, OpG, OpH, OpI, Operations, Reduce, Patterns, Sine, InRange, Words32, SumsExact;
    c, d, e, f := c0, d0, e0, f0;
    Performs(0, c, d, e, f, x, s);
    c := OpF(c, d, e, f, x[0], 7, Sine(0));
    Performs(1, f, c, d, e, x, s);
    f := OpF(f, c, d, e, x[1], 12, Sine(1));
    Performs(2, e, f, c, d, x, s);
    e := OpF(e, f, c, d, x[2], 17, Sine(2));
    Performs(3, d, e, f, c, x, s);
    d := OpF(d, e, f, c, x[3], 22, Sine(3));
    Performs(4, c, d, e, f, x, s);
    c := OpF(c, d, e, f, x[4], 7, Sine(4));
    Performs(5, f, c, d, e, x, s);
    f := OpF(f, c, d, e, x[5], 12, Sine(5));
    Performs(6, e, f, c, d, x, s);
    e := OpF(e, f, c, d, x[6], 17, Sine(6));
    Performs(7, d, e, f, c, x, s);
    d := OpF(d, e, f, c, x[7], 22, Sine(7));
    Performs(8, c, d, e, f, x, s);
    c := OpF(c, d, e, f, x[8], 7, Sine(8));
    Performs(9, f, c, d, e, x, s);
    f := OpF(f, c, d, e, x[9], 12, Sine(9));
    Performs(10, e, f, c, d, x, s);
    e := OpF(e, f, c, d, x[10], 17, Sine(10));
    Performs(11, d, e, f, c, x, s);
    d := OpF(d, e, f, c, x[11], 22, Sine(11));
    Performs(12, c, d, e, f, x, s);
    c := OpF(c, d, e, f, x[12], 7, Sine(12));
    Performs(13, f, c, d, e, x, s);
    f := OpF(f, c, d, e, x[13], 12, Sine(13));
    Performs(14, e, f, c, d, x, s);
    e := OpF(e, f, c, d, x[14], 17, Sine(14));
    Performs(15, d, e, f, c, x, s);
    d := OpF(d, e, f, c, x[15], 22, Sine(15));
  }

  method Round2(x: seq<int>, c0: int, d0: int, e0: int, f0: int, ghost s: Abcd) returns (c: int, d: int, e: int, f: int)
    requires |x| == 16 && Words32(x) && InRange(16, c0, d0, e0, f0)
    requires Patterns(c0, d0, e0, f0) == Operations(16, s, Reduce(x))
    ensures Patterns(c, d, e, f) == Operations(32, s, Reduce(x)) && InRange(32, c, d, e, f)
  {
    hide OpF, OpG, OpH, OpI, Operations, Reduce, Patterns, Sine, InRange, Words32, SumsExact;
    c, d, e, f := c0, d0, e0, f0;
    Performs(16, c, d, e, f, x, s);
    c := OpG(c, d, e, f, x[1], 5, Sine(16));
    Performs(17, f, c, d, e, x, s);
    f := OpG(f, c, d, e, x[6], 9, Sine(17));
    Performs(18, e, f, c, d, x, s);
    e := OpG(e, f, c, d, x[11], 14, Sine(18));
    Performs(19, d, e, f, c, x, s);
    d := OpG(d, e, f, c, x[0], 20, Sine(19));
    Performs(20, c, d, e, f, x, s);
    c := OpG(c, d, e, f, x[5], 5, Sine(20));
    Performs(21, f, c, d, e, x, s);
    f := OpG(f, c, d, e, x[10], 9, Sine(21));
    Performs(22, e, f, c, d, x, s);
    e := OpG(e, f, c, d, x[15], 14, Sine(22));
    Performs(23, d, e, f, c, x, s);
    d := OpG(d, e, f, c, x[4], 20, Sine(23));
    Performs(24, c, d, e, f, x, s);
    c := OpG(c, d, e, f, x[9], 5, Sine(24));
    Performs(25, f, c, d, e, x, s);
    f := OpG(f, c, d, e, x[14], 9, Sine(25));
    Performs(26, e, f, c, d, x, s);
    e := OpG(e, f, c, d, x[3], 14, Sine(26));
    Performs(27, d, e, f, c, x, s);
    d := OpG(d, e, f, c, x[8], 20, Sine(27));
    Performs(28, c, d, e, f, x, s);
    c := OpG(c, d, e, f, x[13], 5, Sine(28));
    Performs(29, f, c, d, e, x, s);
    f := OpG(f, c, d, e, x[2], 9, Sine(29));
    Performs(30, e, f, c, d, x, s);
    e := OpG(e, f, c, d, x[7], 14, Sine(30));
    Performs(31, d, e, f, c, x, s);
    d := OpG(d, e, f, c, x[12], 20, Sine(31));
  }

  method Round3(x: seq<int>, c0: int, d0: int, e0: int, f0: int, ghost s: Abcd) returns (c: int, d: int, e: int, f: int)
    requires |x| == 16 && Words32(x) && InRange(32, c0, d0, e0, f0)
    requires Patterns(c0, d0, e0, f0) == Operations(32, s, Reduce(x))
    ensures Patterns(c, d, e, f) == Operations(48, s, Reduce(x)) && InRange(48, c, d, e, f)
  {
    hide OpF, OpG, OpH, OpI, Operations, Reduce, Patterns, Sine, InRange, Words32, SumsExact;
    c, d, e, f := c0, d0, e0, f0;
    Performs(32, c, d, e, f, x, s);
    c := OpH(c, d, e, f, x[5], 4, Sine(32));
    Performs(33, f, c, d, e, x, s);
    f := OpH(f, c, d, e, x[8], 11, Sine(33));
    Performs(34, e, f, c, d, x, s);
    e := OpH(e, f, c, d, x[11], 16, Sine(34));
    Performs(35, d, e, f, c, x, s);
    d := OpH(d, e, f, c, x[14], 23, Sine(35));
    Performs(36, c, d, e, f, x, s);
    c := OpH(c, d, e, f, x[1], 4, Sine(36));
    Performs(37, f, c, d, e, x, s);
    f := OpH(f, c, d, e, x[4], 11, Sine(37));
    Performs(38, e, f, c, d, x, s);
    e := OpH(e, f, c, d, x[7], 16, Sine(38));
    Performs(39, d, e, f, c, x, s);
    d := OpH(d, e, f, c, x[10], 23, Sine(39));
    Performs(40, c, d, e, f, x, s);
    c := OpH(c, d, e, f, x[13], 4, Sine(40));
    Performs(41, f, c, d, e, x, s);
    f := OpH(f, c, d, e, x[0], 11, Sine(41));
    Performs(42, e, f, c, d, x, s);
    e := OpH(e, f, c, d, x[3], 16, Sine(42));
    Performs(43, d, e, f, c, x, s);
    d := OpH(d, e, f, c, x[6], 23, Sine(43));
    Performs(44, c, d, e, f, x, s);
    c := OpH(c, d, e, f, x[9], 4, Sine(44));
    Performs(45, f, c, d, e, x, s);
    f := OpH(f, c, d, e, x[12], 11, Sine(45));
    Performs(46, e, f, c, d, x, s);
    e := OpH(e, f, c, d, x[15], 16, Sine(46));
    Performs(47, d, e, f, c, x, s);
    d := OpH(d, e, f, c, x[2], 23, Sine(47));
  }

  method Round4(x: seq<int>, c0: int, d0: int, e0: int, f0: int, ghost s: Abcd) returns (c: int, d: int, e: int, f: int)
    requires |x| == 16 && Words32(x) && InRange(48, c0, d0, e0, f0)
    requires Patterns(c0, d0, e0, f0) == Operations(48, s, Reduce(x))
    ensures Patterns(c, d, e, f) == Operations(64, s, Reduce(x)) && InRange(64, c, d, e, f)
  {
    hide OpF, OpG, OpH, OpI, Operations, Reduce, Patterns, Sine, InRange, Words32, SumsExact;
    c, d, e, f := c0, d0, e0, f0;
    Performs(48, c, d, e, f, x, s);
    c := OpI(c, d, e, f, x[0], 6, Sine(48));
    Performs(49, f, c, d, e, x, s);
    f := OpI(f, c, d, e, x[7], 10, Sine(49));
    Performs(50, e, f, c, d, x, s);
    e := OpI(e, f, c, d, x[14], 15, Sine(50));
    Performs(51, d, e, f, c, x, s);
    d := OpI(d, e, f, c, x[5], 21, Sine(51));
    Performs(52, c, d, e, f, x, s);
    c := OpI(c, d, e, f, x[12], 6, Sine(52));
    Performs(53, f, c, d, e, x, s);
    f := OpI(f, c, d, e, x[3], 10, Sine(53));
    Performs(54, e, f, c, d, x, s);
    e := OpI(e, f, c, d, x[10], 15, Sine(54));
    Performs(55, d, e, f, c, x, s);
    d := OpI(d, e, f, c, x[1], 21, Sine(55));
    Performs(56, c, d, e, f, x, s);
    c := OpI(c, d, e, f, x[8], 6, Sine(56));
    Performs(57, f, c, d, e, x, s);
    f := OpI(f, c, d, e, x[15], 10, Sine(57));
    Performs(58, e, f, c, d, x, s);
    e := OpI(e, f, c, d, x[6], 15, Sine(58));
    Performs(59, d, e, f, c, x, s);
    d := OpI(d, e, f, c, x[13], 21, Sine(59));
    Performs(60, c, d, e, f, x, s);
    c := OpI(c, d, e, f, x[4], 6, Sine(60));
    Performs(61, f, c, d, e, x, s);
    f := OpI(f, c, d, e, x[11], 10, Sine(61));
    Performs(62, e, f, c, d, x, s);
    e := OpI(e, f, c, d, x[2], 15, Sine(62));
    Performs(63, d, e, f, c, x, s);
    d := OpI(d, e, f, c, x[9], 21, Sine(63));
  }

  // ---------------------------------------------------------------- one block

  // (w << 8 | w >>> 24) & 16711935 | (w << 24 | w >>> 8) & 4278255360
  function Swap(w: int): int
  {
    Or(And(Or(Shl(w, 8), Shr(w, 24)), 0x00ff_00ff), And(Or(Shl(w, 24), Shr(w, 8)), 0xff00_ff00))
  }

  // Rotating a word by whole bytes.
  lemma RotatedWord(b0: byte, b1: byte, b2: byte, b3: byte, w: int)
    requires U32(w) == Word(b0, b1, b2, b3)
    ensures U32(Or(Shl(w, 8), Shr(w, 24))) == Word(b1, b2, b3, b0)
    ensures U32(Or(Shl(w, 24), Shr(w, 8))) == Word(b3, b0, b1, b2)
  {
    hide Or, Shl, Shr, High, Low;
    assert Pow2(8) == 0x100 && Pow2(24) == 0x100_0000 by { Pow2Values(); }
    ShiftIn(w, w, 8);
    ShiftIn(w, w, 24);
    LowIs(U32(w), 8, 0x100);
    LowIs(U32(w), 24, 0x100_0000);
    ModUnique(U32(w), 0x100, b0 as int * 0x1_0000 + b1 as int * 0x100 + b2 as int, b3);
    ModUnique(U32(w), 0x100_0000, b0, b1 as int * 0x1_0000 + b2 as int * 0x100 + b3 as int);
    GlueIs(Low(U32(w), 24), 8, 0x100, High(U32(w), 24));
    GlueIs(Low(U32(w), 8), 24, 0x100_0000, High(U32(w), 8));
  }

  // Swap reverses the bytes of a word.
  lemma SwapReverses(w: int, r: nat)
    requires r < 4
    ensures Lane(Swap(w), r) == Lane(w, 3 - r)
  {
    hide Or, And, Shl, Shr, Lane, Word, U32, BitAnd, BitOr;
    var b0, b1, b2, b3 := Lane(w, 0), Lane(w, 1), Lane(w, 2), Lane(w, 3);
    WordOfLanes(w);
    RotatedWord(b0, b1, b2, b3, w);
    var x, y := Or(Shl(w, 8), Shr(w, 24)), Or(Shl(w, 24), Shr(w, 8));
    LanesOf(x, b1, b2, b3, b0);
    LanesOf(y, b3, b0, b1, b2);
    MaskWords();
    LanesOf(0x00ff_00ff, 0, 255, 0, 255);
    LanesOf(0xff00_ff00, 255, 0, 255, 0);
    LaneAnd(x, 0x00ff_00ff, r);
    LaneAnd(y, 0xff00_ff00, r);
    LaneOr(And(x, 0x00ff_00ff), And(y, 0xff00_ff00), r);
    forall b: byte ensures BitAnd(b, 255) == b && BitAnd(b, 0) == 0 && BitOr(b, 0) == b == BitOr(0, b) {
      ByteAnd(b);
      OrZero(b);
    }
  }

  lemma LanesOf(w: int, b0: byte, b1: byte, b2: byte, b3: byte)
    requires U32(w) == Word(b0, b1, b2, b3)
    ensures Lane(w, 0) == b0 && Lane(w, 1) == b1 && Lane(w, 2) == b2 && Lane(w, 3) == b3
  {
    hide Lane, Word;
    LanesOfWord(b0, b1, b2, b3);
    Reduced(w);
    LaneOfPattern(w, Word(b0, b1, b2, b3), 0);
    LaneOfPattern(w, Word(b0, b1, b2, b3), 1);
    LaneOfPattern(w, Word(b0, b1, b2, b3), 2);
    LaneOfPattern(w, Word(b0, b1, b2, b3), 3);
  }

  lemma MaskWords()
    ensures U32(0x00ff_00ff) == Word(0, 255, 0, 255) && U32(0xff00_ff00) == Word(255, 0, 255, 0)
  {
  }

  // The 64 bytes from word k on.
  function BlockAt(words: seq<int>, k: nat): (b: seq<byte>)
    ensures |b| == 64 && forall j :: 0 <= j < 64 ==> b[j] == ByteAt(words, 4 * k + j)
  {
    BytesOf(words, 4 * k + 64)[4 * k..]
  }

  function SwappedWords(words: seq<int>, k: nat): seq<int>
  {
    seq(16, i requires 0 <= i => Swap(WordAt(words, k + i)))
  }

  lemma SwappedBlock(words: seq<int>, k: nat)
    ensures Reduce(SwappedWords(words, k)) == BlockWords(BlockAt(words, k))
  {
    hide Swap, ByteAt, Word, WordAt, U32, BlockAt, BytesOf;
    var x, b := Reduce(SwappedWords(words, k)), BlockAt(words, k);
    forall i | 0 <= i < 16 ensures x[i] == BlockWords(b)[i] {
      SwappedWord(words, k + i);
      assert 4 * (k + i) == 4 * k + 4 * i;
    }
  }

  lemma SwapWithin(words: seq<int>, k: nat)
    ensures Words32(SwappedWords(words, k))
  {
    hide Or, And, Shl, Shr;
    forall w ensures Within(1, Swap(w)) {
      BitsWithin(And(Or(Shl(w, 8), Shr(w, 24)), 0x00ff_00ff), And(Or(Shl(w, 24), Shr(w, 8)), 0xff00_ff00), 0);
    }
  }

  lemma SwappedWord(words: seq<int>, n: nat)
    ensures U32(Swap(WordAt(words, n)))
      == Word(ByteAt(words, 4 * n + 3), ByteAt(words, 4 * n + 2), ByteAt(words, 4 * n + 1), ByteAt(words, 4 * n))
  {
    hide Swap, Lane, Word;
    var w := WordAt(words, n);
    WordOfLanes(Swap(w));
    SwapReverses(w, 0);
    SwapReverses(w, 1);
    SwapReverses(w, 2);
    SwapReverses(w, 3);
    forall r: nat | r < 4 ensures ByteAt(words, 4 * n + r) == Lane(w, r) {
      ZeroLanes(r);
      assert (4 * n + r) / 4 == n && (4 * n + r) % 4 == r;
    }
    assert ByteAt(words, 4 * n + 0) == Lane(w, 0);
  }

  function StateOf(hash: seq<int>): Abcd
    requires |hash| == 4
  {
    Patterns(hash[0], hash[1], hash[2], hash[3])
  }

  // Four words of a size that the first operation can take.
  predicate IsHash(hash: seq<int>)
  {
    |hash| == 4 && forall i :: 0 <= i < 4 ==> Within(2, hash[i])
  }

  // b[0] = b[0] + c | 0
  lemma AddedWord(x: int, y: int)
    ensures U32(Or(x + y, 0)) == Plus(U32(x), U32(y))
  {
    hide Or, BitOr;
    U32Or(x + y, 0);
    OrZero(U32(x + y));
  }

  // The loop that swaps the words of a block in place.
  method SwapBlock(words: seq<int>, k: nat) returns (r: seq<int>)
    ensures |r| == if k + 16 <= |words| then |words| else k + 16
    ensures forall i :: 0 <= i < |r| && !(k <= i < k + 16) ==> r[i] == WordAt(words, i)
    ensures forall i :: k <= i < k + 16 ==> r[i] == Swap(WordAt(words, i))
  {
    hide Swap;
    r := words;
    for b := 0 to 16
      invariant |r| == if k + b <= |words| || b == 0 then |words| else k + b
      invariant forall i :: 0 <= i < |r| && !(k <= i < k + b) ==> r[i] == WordAt(words, i)
      invariant forall i :: k <= i < k + b ==> r[i] == Swap(WordAt(words, i))
    {
      r := Put(r, k + b, Swap(WordAt(r, k + b)));
    }
  }

  // The 64 operations and the final additions.
  method CompressBlock(g: seq<int>, k: nat, hash: seq<int>, ghost block: seq<byte>) returns (b: seq<int>)
    requires IsHash(hash) && k + 16 <= |g| && |block| == 64
    requires Words32(g[k..k + 16]) && Reduce(g[k..k + 16]) == BlockWords(block)
    ensures IsHash(b) && StateOf(b) == Compress(StateOf(hash), block)
  {
    hide Operations, Reduce, Or, Plus, U32, BlockWords;
    var x := g[k..k + 16];
    ghost var s := StateOf(hash);
    NoOperations(s, x);
    var c, d, e, f := Round1(x, hash[0], hash[1], hash[2], hash[3], s);
    c, d, e, f := Round2(x, c, d, e, f, s);
    c, d, e, f := Round3(x, c, d, e, f, s);
    c, d, e, f := Round4(x, c, d, e, f, s);
    AddedWord(hash[0], c);
    AddedWord(hash[1], d);
    AddedWord(hash[2], e);
    AddedWord(hash[3], f);
    assert Exact(hash[0] + c) && Exact(hash[1] + d) && Exact(hash[2] + e) && Exact(hash[3] + f);
    BitsWithin(hash[0] + c, 0, 0);
    BitsWithin(hash[1] + d, 0, 0);
    BitsWithin(hash[2] + e, 0, 0);
    BitsWithin(hash[3] + f, 0, 0);
    b := [Or(hash[0] + c, 0), Or(hash[1] + d, 0), Or(hash[2] + e, 0), Or(hash[3] + f, 0)];
  }

  lemma NoOperations(s: Abcd, x: seq<int>)
    requires |x| == 16
    ensures Operations(0, s, Reduce(x)) == s
  {
  }

  // ---------------------------------------------------------------- the hasher

  // What is left of the words after the first n are spliced off.
  function Drop(words: seq<int>, n: nat): seq<int>
  {
    if n <= |words| then words[n..] else []
  }

  lemma DropBytes(words: seq<int>, n: nat, sig: nat)
    requires 4 * n <= sig
    ensures BytesOf(words, sig) == BytesOf(words, 4 * n) + BytesOf(Drop(words, n), sig - 4 * n)
    ensures Clean(words, sig) ==> Clean(Drop(words, n), sig - 4 * n)
  {
    hide Lane;
    forall j: nat ensures ByteAt(Drop(words, n), j) == ByteAt(words, 4 * n + j) {
      assert (4 * n + j) / 4 == n + j / 4 && (4 * n + j) % 4 == j % 4;
    }
    assert BytesOf(words, sig) == BytesOf(words, 4 * n) + BytesOf(Drop(words, n), sig - 4 * n);
  }

  // One more block of a prefix.
  lemma PrefixBlock(words: seq<int>, k: nat)
    ensures BytesOf(words, 4 * k + 64) == BytesOf(words, 4 * k) + BlockAt(words, k)
  {
    hide ByteAt;
  }

  // The words after the three writes of _doFinalize; the shifts see 32 bits of the number of bits.
  function PadWords(words: seq<int>, sig: nat, length: nat): seq<int>
  {
    var last := U32(8 * sig + 64) / 512 * 16;
    var marked := OrByte(words, U32(8 * sig) / 8, 128);
    Put(Put(marked, last + 15, Swap(8 * length / 0x1_0000_0000)), last + 14, Swap(8 * length))
  }

  // The bytes that are processed then: whole blocks, counting one word more than there is.
  function PaddedBytes(words: seq<int>, sig: nat, length: nat): seq<byte>
  {
    var k := PadWords(words, sig, length);
    BytesOf(k, (|k| + 1) / 16 * 64)
  }

  // A buffer whose left-over words and bytes do not show in the padding.
  ghost predicate PadsRight(words: seq<int>, sig: nat)
  {
    var last := (8 * sig + 64) / 512 * 16;
    && 8 * sig + 64 < 0x1_0000_0000
    && |words| <= last + 30
    && (ByteAt(words, sig) == 0 || ByteAt(words, sig) == 0x80)
    && forall j :: sig < j < 4 * last + 56 ==> ByteAt(words, j) == 0
  }

  lemma InitialState(hash: seq<int>, words: seq<int>)
    requires hash == [1732584193, 4023233417, 2562383102, 271733878] && words == []
    ensures IsHash(hash) && StateOf(hash) == INITIAL == CompressAll(INITIAL, [])
    ensures Clean(words, 0) && BytesOf(words, 0) == []
  {
    hide Compress, ByteAt;
    assert forall j: nat :: ByteAt(words, j) == 0 by { NothingAt(words); }
  }

  lemma NothingAt(words: seq<int>)
    requires words == []
    ensures forall j: nat :: ByteAt(words, j) == 0
  {
    hide Lane;
  }

  class Hasher {
    var data: WordArray
    var nDataBytes: nat
    var hash: seq<int>
    // Everything given to the hasher since it was reset.
    ghost var message: seq<byte>

    /** The buffer holds the end of the message; the state holds the blocks before it. */
    ghost predicate Valid()
      reads this, data
    {
      && IsHash(hash)
      && nDataBytes == |message|
      && data.sigBytes <= |message|
      && var done := |message| - data.sigBytes;
      && done % 64 == 0
      && data.Bytes() == message[done..]
      && StateOf(hash) == CompressAll(INITIAL, message[..done])
    }

    constructor ()
      ensures Valid() && message == [] && fresh(data) && data.Clamped()
    {
      data := new WordArray([], 0);
      nDataBytes := 0;
      hash := [1732584193, 4023233417, 2562383102, 271733878];
      message := [];
      new;
      InitialState(hash, data.words);
      hide StateOf, CompressAll, BytesOf, IsHash, Clean;
      assert message[..0] == [] && message[0..] == [];
    }

    // _doProcessBlock
    method DoProcessBlock(k: nat)
      requires IsHash(hash)
      modifies this`hash, data`words
      ensures IsHash(hash)
      ensures |data.words| == if |old(data.words)| >= k + 16 then |old(data.words)| else k + 16
      ensures forall i :: 0 <= i < |data.words| && !(k <= i < k + 16) ==> data.words[i] == WordAt(old(data.words), i)
      ensures StateOf(hash) == Compress(old(StateOf(hash)), BlockAt(old(data.words), k))
    {
      hide StateOf, Compress, Swap, Reduce, BlockAt, BlockWords;
      var before := data.words;
      data.words := SwapBlock(data.words, k);
      assert data.words[k..k + 16] == SwappedWords(before, k);
      SwappedBlock(before, k);
      SwapWithin(before, k);
      hash := CompressBlock(data.words, k, hash, BlockAt(before, k));
    }

    /** _process, for the hasher's zero _minBufferSize: the full blocks of the buffer go into the state, in order. */
    method Process()
      requires IsHash(hash)
      modifies this`hash, data
      ensures IsHash(hash)
      ensures var b := old(data.sigBytes) / 64 * 16;
        && StateOf(hash) == CompressAll(old(StateOf(hash)), BytesOf(old(data.words), 4 * b))
        && data.sigBytes == old(data.sigBytes) - 4 * b
        && data.words == Drop(old(data.words), b)
    {
      hide StateOf, Compress, BlockAt, BytesOf;
      ghost var before, h0 := data.words, StateOf(hash);
      var b := data.sigBytes / 64 * 16;
      if b > 0 {
        var l := 0;
        NoBlocks(h0, before);
        while l < b
          invariant 0 <= l <= b && l % 16 == 0 && IsHash(hash)
          invariant data.sigBytes == old(data.sigBytes)
          invariant |data.words| >= |before| && |data.words| >= l
          invariant |data.words| > |before| ==> |data.words| == l
          invariant forall i :: l <= i < |data.words| ==> data.words[i] == WordAt(before, i)
          invariant StateOf(hash) == CompressAll(h0, BytesOf(before, 4 * l))
        {
          SameBlock(data.words, before, l);
          PrefixBlock(before, l);
          NextBlock(h0, BytesOf(before, 4 * l), BlockAt(before, l));
          DoProcessBlock(l);
          l := l + 16;
        }
        assert Drop(data.words, b) == Drop(before, b);
        data.words := Drop(data.words, b);
        data.sigBytes := data.sigBytes - 4 * b;
      } else {
        NoBlocks(h0, before);
      }
    }

    // _append
    method Append(chunk: WordArray)
      requires Valid() && chunk != data && data.sigBytes + chunk.sigBytes < 0x1_0000_0000
      modifies this, data
      ensures Valid() && data == old(data) && message == old(message) + chunk.Bytes()
      ensures chunk.Clamped() ==> data.Clamped()
      ensures data.sigBytes == old(data.sigBytes) + chunk.sigBytes
      ensures old(data.sigBytes) == 0 ==> data.words == Copied(chunk.words, chunk.sigBytes)
    {
      hide BytesOf, CompressAll, Clean;
      ghost var done := |message| - data.sigBytes;
      data.Concat(chunk);
      nDataBytes := nDataBytes + chunk.sigBytes;
      message := message + chunk.Bytes();
      assert message[..done] == old(message)[..done];
      assert message[done..] == old(message)[done..] + chunk.Bytes();
    }

    /** update: the chunk joins the message, and full blocks leave the buffer. */
    method Update(chunk: WordArray)
      requires Valid() && chunk != data && data.sigBytes + chunk.sigBytes < 0x1_0000_0000
      modifies this, data
      ensures Valid() && data == old(data) && message == old(message) + chunk.Bytes()
      ensures chunk.Clamped() ==> data.Clamped()
      ensures data.sigBytes < 64
    {
      hide BytesOf, CompressAll, Clean, Drop, StateOf;
      Append(chunk);
      ghost var words, sig, done := data.words, data.sigBytes, |message| - data.sigBytes;
      ghost var b := sig / 64 * 16;
      BlocksLeave(sig);
      Process();
      DropBytes(words, b, sig);
      ghost var first := BytesOf(words, 4 * b);
      MessageSplits(message, done, first, data.Bytes());
      CompressAllSplit(INITIAL, message[..done], first);
    }

    // The padding written behind the buffered bytes.
    method PadBuffer()
      requires Valid() && 8 * |message| < 0x20_0000_0000_0000
      modifies data
      ensures data.words == PadWords(old(data.words), old(data.sigBytes), |message|)
      ensures data.sigBytes == 4 * (|data.words| + 1)
    {
      hide BytesOf, CompressAll, StateOf, Swap, Put, OrByte, U32;
      var b := 8 * nDataBytes;
      var h := 8 * data.sigBytes;
      var l := b / 0x1_0000_0000;
      var last := U32(h + 64) / 512 * 16;
      var k := OrByte(data.words, U32(h) / 8, 128);
      k := Put(k, last + 15, Swap(l));
      k := Put(k, last + 14, Swap(b));
      data.words := k;
      data.sigBytes := 4 * (|k| + 1);
    }

    /** finalize without an argument: the state goes on over the padded buffer.  If the buffer pads right, as every
        clamped one of fewer than 2^29 - 8 bytes does, the result is the digest of everything the hasher was given. */
    method DoFinalize() returns (digest: WordArray)
      requires Valid() && 8 * |message| < 0x20_0000_0000_0000
      modifies this, data
      ensures fresh(digest) && digest.Clamped() && message == old(message)
      ensures digest.Bytes() ==
        StateBytes(CompressAll(old(StateOf(hash)), PaddedBytes(old(data.words), old(data.sigBytes), |message|)))
      ensures PadsRight(old(data.words), old(data.sigBytes)) ==> digest.Bytes() == Digest(message)
    {
      hide BytesOf, CompressAll, Clean, Drop, StateOf, Pad, Padding, PadWords, ByteAt;
      ghost var words, sig, done := data.words, data.sigBytes, |message| - data.sigBytes;
      PadBuffer();
      BlocksOf(|data.words|);
      Process();
      if PadsRight(words, sig) {
        BufferedLength(|message|, sig);
        PaddedBuffer(words, sig, |message|);
        PadSplits(message, done);
        CompressAllSplit(INITIAL, message[..done], message[done..] + Padding(|message|));
      }
      digest := SwapState();
    }

    /** finalize with a last chunk. */
    method Finalize(chunk: WordArray) returns (digest: WordArray)
      requires Valid() && chunk != data && data.sigBytes + chunk.sigBytes < 0x1_0000_0000
      requires 8 * (|message| + chunk.sigBytes) < 0x20_0000_0000_0000
      modifies this, data
      ensures fresh(digest) && digest.Clamped() && message == old(message) + old(chunk.Bytes())
      ensures old(chunk.Clamped()) && 8 * (old(data.sigBytes) + old(chunk.sigBytes)) + 64 < 0x1_0000_0000 ==>
        digest.Bytes() == Digest(message)
      ensures old(data.sigBytes) == 0 ==>
        PadsRight(Copied(old(chunk.words), old(chunk.sigBytes)), old(chunk.sigBytes)) ==>
        digest.Bytes() == Digest(message)
    {
      hide BytesOf, CompressAll, Clean, Drop, StateOf, Pad, Padding, Digest, PaddedBytes, PadsRight;
      Append(chunk);
      CleanPadsRight(data.words, data.sigBytes);
      digest := DoFinalize();
    }

    // The loop at the end of _doFinalize.
    method SwapState() returns (digest: WordArray)
      requires |hash| == 4
      modifies this`hash
      ensures fresh(digest) && digest.Clamped()
      ensures digest.Bytes() == StateBytes(old(StateOf(hash)))
    {
      hide Swap, BytesOf, Clean;
      ghost var before := hash;
      hash := [Swap(hash[0]), Swap(hash[1]), Swap(hash[2]), Swap(hash[3])];
      SwappedState(before, hash);
      digest := new WordArray(hash, 16);
    }
  }

  lemma LittleBytesOf(x: nat, n: nat)
    ensures n >= 4 ==> LittleBytes(x, n) == LittleBytes(x, 4) + LittleBytes(x / 0x1_0000_0000, n - 4)
  {
    if n >= 4 {
      FourQuotients(x);
      FourMoreBytes(x, n - 4);
      FourMoreBytes(x, 0);
      hide LittleBytes;
      assert LittleBytes(x / 256 / 256 / 256 / 256, 0) == [];
    }
  }

  lemma FourQuotients(x: nat)
    ensures x / 256 / 256 / 256 / 256 == x / 0x1_0000_0000
  {
    assert x / 256 / 256 == x / 0x1_0000;
    var y := x / 0x1_0000;
    assert y / 256 / 256 == y / 0x1_0000;
  }

  lemma FourMoreBytes(x: nat, n: nat)
    ensures LittleBytes(x, n + 4) == [x % 256, x / 256 % 256, x / 256 / 256 % 256, x / 256 / 256 / 256 % 256]
      + LittleBytes(x / 256 / 256 / 256 / 256, n)
  {
    var x1 := x / 256;
    var x2 := x1 / 256;
    var x3 := x2 / 256;
    assert LittleBytes(x3, n + 1) == [x3 % 256] + LittleBytes(x3 / 256, n);
    assert LittleBytes(x2, n + 2) == [x2 % 256] + LittleBytes(x3, n + 1);
    assert LittleBytes(x1, n + 3) == [x1 % 256] + LittleBytes(x2, n + 2);
    assert LittleBytes(x, n + 4) == [x % 256] + LittleBytes(x1, n + 3);
  }

  // The bytes of a swapped word are those of the number, low-order byte first.
  lemma SwappedLanes(x: nat)
    ensures LittleBytes(x, 4) == [Lane(Swap(x), 0), Lane(Swap(x), 1), Lane(Swap(x), 2), Lane(Swap(x), 3)]
  {
    hide Lane, Swap, U32;
    SwapReverses(x, 0);
    SwapReverses(x, 1);
    SwapReverses(x, 2);
    SwapReverses(x, 3);
    WordOfLanes(x);
    FourLittleBytes(x, Lane(x, 0), Lane(x, 1), Lane(x, 2), Lane(x, 3));
  }

  lemma FourLittleBytes(x: nat, b0: byte, b1: byte, b2: byte, b3: byte)
    requires U32(x) == Word(b0, b1, b2, b3)
    ensures LittleBytes(x, 4) == [b3, b2, b1, b0]
  {
    var u, q := U32(x), x / 0x1_0000_0000;
    assert x == q * 0x1_0000_0000 + u;
    var x1 := x / 256;
    var x2 := x1 / 256;
    var x3 := x2 / 256;
    ModUnique(x, 256, q * 0x100_0000 + (b0 as int * 0x1_0000 + b1 as int * 0x100 + b2 as int), b3);
    ModUnique(x1, 256, q * 0x1_0000 + (b0 as int * 0x100 + b1 as int), b2);
    ModUnique(x2, 256, q * 0x100 + b0 as int, b1);
    ModUnique(x3, 256, q, b0);
    FourMoreBytes(x, 0);
  }

  lemma SwappedState(hash: seq<int>, swapped: seq<int>)
    requires |hash| == 4 && swapped == [Swap(hash[0]), Swap(hash[1]), Swap(hash[2]), Swap(hash[3])]
    ensures Clean(swapped, 16)
    ensures BytesOf(swapped, 16) == StateBytes(StateOf(hash))
  {
    hide Lane, Swap, LittleBytes;
    forall i: nat | i < 4 ensures WordBytes(U32(hash[i]))
      == [ByteAt(swapped, 4 * i), ByteAt(swapped, 4 * i + 1), ByteAt(swapped, 4 * i + 2), ByteAt(swapped, 4 * i + 3)]
    {
      SwappedLanes(U32(hash[i]));
      SwapOfPattern(hash[i]);
      LanesAt(swapped, i);
    }
    assert WordBytes(U32(hash[0])) == [ByteAt(swapped, 0), ByteAt(swapped, 1), ByteAt(swapped, 2), ByteAt(swapped, 3)];
    assert WordBytes(U32(hash[1])) == [ByteAt(swapped, 4), ByteAt(swapped, 5), ByteAt(swapped, 6), ByteAt(swapped, 7)];
    assert WordBytes(U32(hash[2]))
      == [ByteAt(swapped, 8), ByteAt(swapped, 9), ByteAt(swapped, 10), ByteAt(swapped, 11)];
    assert WordBytes(U32(hash[3]))
      == [ByteAt(swapped, 12), ByteAt(swapped, 13), ByteAt(swapped, 14), ByteAt(swapped, 15)];
  }

  // Swapping reads only the 32-bit pattern.
  lemma SwapOfPattern(w: int)
    ensures Swap(U32(w)) == Swap(w)
  {
    Reduced(w);
  }

  // The padded message from position done on.
  lemma PadSplits(message: seq<byte>, done: nat)
    requires done <= |message|
    ensures Pad(message) == message[..done] + (message[done..] + Padding(|message|))
  {
    hide Padding;
    assert message == message[..done] + message[done..];
  }

  // ---------------------------------------------------------------- the padding of a buffer

  lemma CleanPadsRight(words: seq<int>, sig: nat)
    ensures Clean(words, sig) ==> (PadsRight(words, sig) <==> 8 * sig + 64 < 0x1_0000_0000)
  {
    hide ByteAt;
  }

  /** The bytes processed are the buffered bytes and the padding of RFC 1321 if and only if the buffer pads right; a
      clamped buffer does so unless the number of its bits outgrows 32 bits. */
  lemma PaddedBuffer(words: seq<int>, sig: nat, length: nat)
    requires sig % 64 == length % 64
    requires 8 * sig + 64 < 0x1_0000_0000 || Clean(words, sig)
    ensures PaddedBytes(words, sig, length) == BytesOf(words, sig) + Padding(length) <==> PadsRight(words, sig)
  {
    hide Padding, BytesOf, ByteAt, PadWords, PaddedBytes;
    var last := (8 * sig + 64) / 512 * 16;
    if 8 * sig + 64 >= 0x1_0000_0000 {
      TooFewBlocks(words, sig, length);
    } else {
      PaddedBlocks(words, sig, length);
      PaddingSize(sig, length);
      if |words| <= last + 30 {
        PaddingLengths(sig, length);
        PaddedWordsAre(words, sig, length);
        PaddedIs(words, sig, length, PadWords(words, sig, length), 4 * last + 56);
      }
    }
  }

  // As long as at most 14 words are left over behind the padding, the last block processed is the padded one.
  lemma PaddedBlocks(words: seq<int>, sig: nat, length: nat)
    requires 8 * sig + 64 < 0x1_0000_0000
    ensures var last := (8 * sig + 64) / 512 * 16;
      if |words| <= last + 30
      then PaddedBytes(words, sig, length) == BytesOf(PadWords(words, sig, length), 4 * last + 64)
      else |PaddedBytes(words, sig, length)| > 4 * last + 64
  {
    hide PadWords, BytesOf, U32;
    PaddedSize(words, sig, length);
    Pattern(8 * sig + 64);
    Pattern(8 * sig);
    MarkerBelow(sig);
    WholeBlocks(|words|, (8 * sig + 64) / 512 * 16, 8 * sig / 32, |PadWords(words, sig, length)|);
  }

  lemma MarkerBelow(sig: nat)
    ensures 8 * sig / 32 + 1 <= (8 * sig + 64) / 512 * 16 + 16 && (8 * sig + 64) / 512 * 16 % 16 == 0
  {
    PaddingLengths(sig, sig);
  }

  lemma WholeBlocks(w: nat, last: nat, marker: nat, n: nat)
    requires last % 16 == 0 && marker + 1 <= last + 16
    requires n >= w && n >= last + 16 && (n == w || n == last + 16 || n == marker + 1)
    ensures if w <= last + 30 then (n + 1) / 16 * 64 == 4 * last + 64 else (n + 1) / 16 * 64 > 4 * last + 64
  {
  }

  lemma BufferedLength(length: nat, sig: nat)
    requires sig <= length && (length - sig) % 64 == 0
    ensures sig % 64 == length % 64
  {
  }

  lemma BlocksLeave(sig: nat)
    ensures 4 * (sig / 64 * 16) <= sig < 4 * (sig / 64 * 16) + 64
    ensures forall done: nat :: done % 64 == 0 ==> (done + 4 * (sig / 64 * 16)) % 64 == 0
  {
  }

  lemma MessageSplits(message: seq<byte>, done: nat, first: seq<byte>, rest: seq<byte>)
    requires done <= |message| && message[done..] == first + rest
    ensures message[..done + |first|] == message[..done] + first && message[done + |first|..] == rest
  {
    assert message == message[..done] + (first + rest);
  }

  lemma BlocksOf(n: nat)
    ensures 4 * (4 * (n + 1) / 64 * 16) == (n + 1) / 16 * 64
  {
  }

  // How long the padded message has to be behind a block boundary.
  lemma PaddingSize(sig: nat, length: nat)
    requires sig % 64 == length % 64
    ensures sig + |Padding(length)| == 4 * ((8 * sig + 64) / 512 * 16) + 64
  {
    PaddingLengths(sig, length);
    hide Zeros, LittleBytes;
  }

  lemma PaddedSize(words: seq<int>, sig: nat, length: nat)
    ensures var k, last := PadWords(words, sig, length), U32(8 * sig + 64) / 512 * 16;
      && |PaddedBytes(words, sig, length)| == (|k| + 1) / 16 * 64
      && |k| >= |words| && |k| >= last + 16 && |k| >= U32(8 * sig) / 32 + 1
      && (|k| == |words| || |k| == last + 16 || |k| == U32(8 * sig) / 32 + 1)
  {
    hide Swap, Or, Shl;
    OrByteLength(words, U32(8 * sig) / 8, 128);
  }

  // When the number of bits wraps, the writes go to the front and the processed blocks end too early.
  lemma TooFewBlocks(words: seq<int>, sig: nat, length: nat)
    requires sig % 64 == length % 64 && 8 * sig + 64 >= 0x1_0000_0000 && |words| == (sig + 3) / 4
    ensures |PaddedBytes(words, sig, length)| < sig + |Padding(length)|
  {
    PaddedSize(words, sig, length);
    PaddingSize(sig, length);
    hide PadWords, PaddedBytes, Padding;
    WrapsLow(sig);
    var n := |PadWords(words, sig, length)|;
    assert 4 * n < sig + 5;
  }

  lemma WrapsLow(sig: nat)
    requires 8 * sig + 64 >= 0x1_0000_0000
    ensures U32(8 * sig + 64) / 512 * 16 + 16 <= sig / 4 && U32(8 * sig) / 32 <= sig / 4
  {
  }

  lemma OrByteIs(words: seq<int>, i: nat, b: byte)
    ensures forall j: nat ::
      ByteAt(OrByte(words, i, b), j) == if j == i then BitOr(ByteAt(words, i), b) else ByteAt(words, j)
  {
    hide Lane, Or, Shl, Put, BitOr;
    var words' := OrByte(words, i, b);
    var w, v := WordAt(words, i / 4), Shl(b, 24 - 8 * (i % 4));
    forall j: nat ensures ByteAt(words', j) == if j == i then BitOr(ByteAt(words, i), b) else ByteAt(words, j) {
      ZeroLanes(j % 4);
      if j / 4 == i / 4 {
        LaneOr(w, v, j % 4);
        LanesOfPlaced(b, i % 4, j % 4);
        OrZero(Lane(w, j % 4));
      } else if j / 4 < |words'| {
        assert words'[j / 4] == if j / 4 < |words| then words[j / 4] else 0;
      }
    }
  }

  lemma MarkerOver(x: byte)
    ensures BitOr(x, 0x80) == 0x80 <==> x == 0 || x == 0x80
  {
    assert Pow2(7) == 128 by { assert Pow2(8) == 2 * Pow2(7); Pow2Values(); }
    OrLow(x, 0x80, 7);
    LowIs(x, 7, 128);
    LowIs(0x80, 7, 128);
    LowIs(BitOr(x, 0x80), 7, 128);
    OrZero(x % 128);
    OrZero(0x80);
    assert BitOr(0x80, 0x80) == 0x80;
  }

  function MarkedByte(words: seq<int>, sig: nat, j: nat): nat
  {
    if j == sig then BitOr(ByteAt(words, sig), 0x80) else ByteAt(words, j)
  }

  // The bytes of the padded words up to the length, and the length.
  lemma PaddedWordsAre(words: seq<int>, sig: nat, length: nat)
    requires 8 * sig + 64 < 0x1_0000_0000
    ensures var k, m := PadWords(words, sig, length), 4 * ((8 * sig + 64) / 512 * 16) + 56;
      && (forall j: nat :: j < m ==> ByteAt(k, j) == MarkedByte(words, sig, j))
      && LittleBytes(8 * length, 8) == [ByteAt(k, m), ByteAt(k, m + 1), ByteAt(k, m + 2), ByteAt(k, m + 3),
           ByteAt(k, m + 4), ByteAt(k, m + 5), ByteAt(k, m + 6), ByteAt(k, m + 7)]
  {
    hide Lane, Swap, LittleBytes, OrByte, Put, BitOr;
    var k, last := PadWords(words, sig, length), (8 * sig + 64) / 512 * 16;
    Pattern(8 * sig + 64);
    Pattern(8 * sig);
    var w := OrByte(words, sig, 128);
    OrByteIs(words, sig, 128);
    LengthBytes(k, last + 14, length);
    forall j: nat | j < 4 * last + 56 ensures ByteAt(k, j) == ByteAt(w, j) {
      assert k[j / 4] == WordAt(w, j / 4);
      ZeroLanes(j % 4);
    }
  }

  lemma PaddingLengths(sig: nat, length: nat)
    requires sig % 64 == length % 64
    ensures var last := (8 * sig + 64) / 512 * 16;
      sig + 1 + (55 - length) % 64 == 4 * last + 56 && sig / 4 + 1 <= last + 14
  {
    var q, r, p := sig / 64, sig % 64, length / 64;
    assert sig == 64 * q + r && length == 64 * p + r;
    var z := if r <= 55 then q else q + 1;
    assert (55 - length) % 64 == if r <= 55 then 55 - r else 119 - r by {
      assert 55 - length == 64 * (if r <= 55 then -p else -p - 1) + if r <= 55 then 55 - r else 119 - r;
    }
    assert (8 * sig + 64) / 512 == z by {
      assert 8 * sig + 64 == 512 * z + if r <= 55 then 8 * r + 64 else 8 * r - 448;
    }
  }

  // The bytes of word n.
  lemma LanesAt(k: seq<int>, n: nat)
    requires n < |k|
    ensures ByteAt(k, 4 * n) == Lane(k[n], 0) && ByteAt(k, 4 * n + 1) == Lane(k[n], 1)
    ensures ByteAt(k, 4 * n + 2) == Lane(k[n], 2) && ByteAt(k, 4 * n + 3) == Lane(k[n], 3)
  {
    hide Lane;
  }

  lemma LengthBytes(k: seq<int>, n: nat, length: nat)
    requires |k| >= n + 2 && k[n] == Swap(8 * length) && k[n + 1] == Swap(8 * length / 0x1_0000_0000)
    ensures LittleBytes(8 * length, 8) == [
      ByteAt(k, 4 * n), ByteAt(k, 4 * n + 1), ByteAt(k, 4 * n + 2), ByteAt(k, 4 * n + 3),
      ByteAt(k, 4 * n + 4), ByteAt(k, 4 * n + 5), ByteAt(k, 4 * n + 6), ByteAt(k, 4 * n + 7)]
  {
    hide Lane, Swap, LittleBytes, ByteAt;
    LittleBytesOf(8 * length, 8);
    SwappedLanes(8 * length);
    SwappedLanes(8 * length / 0x1_0000_0000);
    LanesAt(k, n);
    LanesAt(k, n + 1);
  }

  lemma PaddedIs(words: seq<int>, sig: nat, length: nat, k: seq<int>, m: nat)
    requires sig + 1 + (55 - length) % 64 == m
    requires forall j: nat :: j < m ==> ByteAt(k, j) == MarkedByte(words, sig, j)
    requires LittleBytes(8 * length, 8) == [ByteAt(k, m), ByteAt(k, m + 1), ByteAt(k, m + 2), ByteAt(k, m + 3),
      ByteAt(k, m + 4), ByteAt(k, m + 5), ByteAt(k, m + 6), ByteAt(k, m + 7)]
    ensures BytesOf(k, m + 8) == BytesOf(words, sig) + Padding(length) <==>
      (ByteAt(words, sig) == 0 || ByteAt(words, sig) == 0x80) && forall j :: sig < j < m ==> ByteAt(words, j) == 0
  {
    hide LittleBytes, ByteAt, Zeros, BitOr;
    MarkerOver(ByteAt(words, sig));
    var z := Zeros((55 - length) % 64);
    var p, q := BytesOf(k, m + 8), BytesOf(words, sig) + Padding(length);
    assert |p| == |q|;
    assert q[sig] == 0x80;
    forall j | sig < j < m ensures q[j] == 0 { assert q[j] == z[j - sig - 1]; }
    forall j | m <= j < m + 8 ensures p[j] == q[j] {
      assert q[j] == LittleBytes(8 * length, 8)[j - m];
      var d := j - m;
      assert d == 0 || d == 1 || d == 2 || d == 3 || d == 4 || d == 5 || d == 6 || d == 7;
    }
    if p == q {
      forall j | sig < j < m ensures ByteAt(words, j) == 0 { assert p[j] == q[j]; }
      assert p[sig] == q[sig];
    }
  }

  /** A word array with three bytes and a fourth left over is hashed as something else: the marker is or-ed onto it. */
  lemma LeftOverByte()
    ensures var words := [0x6162_6364];
      !PadsRight(words, 3) && PaddedBytes(words, 3, 3) != BytesOf(words, 3) + Padding(3)
  {
    hide Padding, PaddedBytes, Lane;
    var words := [0x6162_6364];
    LanesOfWord(0x61, 0x62, 0x63, 0x64);
    assert Word(0x61, 0x62, 0x63, 0x64) == 0x6162_6364;
    assert ByteAt(words, 3) == 0x64;
    PaddedBuffer(words, 3, 3);
  }

  lemma NoBlocks(s: Abcd, words: seq<int>)
    ensures CompressAll(s, BytesOf(words, 0)) == s && Drop(words, 0) == words
  {
  }

  // Blocks processed earlier do not matter.
  lemma SameBlock(a: seq<int>, b: seq<int>, k: nat)
    requires |a| >= |b| && forall i :: k <= i < |a| ==> a[i] == WordAt(b, i)
    ensures BlockAt(a, k) == BlockAt(b, k)
  {
    hide Lane, BytesOf;
    forall r: nat | r < 4 ensures Lane(0, r) == 0 { ZeroLanes(r); }
  }

  // ---------------------------------------------------------------- splitting a message

  function Joined(chunks: seq<seq<byte>>): seq<byte>
  {
    if chunks == [] then [] else chunks[0] + Joined(chunks[1..])
  }

  function Length(chunks: seq<seq<byte>>): nat
  {
    |Joined(chunks)|
  }

  lemma {:induction false} JoinedAppend(chunks: seq<seq<byte>>, c: seq<byte>)
    ensures Joined(chunks + [c]) == Joined(chunks) + c
  {
    if chunks == [] {
      assert chunks + [c] == [c];
      assert Joined([c]) == c + Joined([]);
    } else {
      assert (chunks + [c])[1..] == chunks[1..] + [c];
      JoinedAppend(chunks[1..], c);
    }
  }

  /** However a message is split, feeding the pieces to the hasher one by one and the last one to finalize gives the
      digest of the whole message. */
  method DigestInPieces(chunks: seq<seq<byte>>, last: seq<byte>) returns (digest: WordArray)
    requires 8 * (Length(chunks) + |last|) < 0x20_0000_0000_0000
    requires forall i :: 0 <= i < |chunks| ==> |chunks[i]| + 64 < 0x1_0000_0000
    requires 8 * (|last| + 64) + 64 < 0x1_0000_0000
    ensures digest.Bytes() == Digest(Joined(chunks) + last)
  {
    hide BytesOf, Digest, Clean, Joined, PadsRight;
    var hasher := new Hasher();
    EmptyJoined(chunks);
    for i := 0 to |chunks|
      invariant hasher.Valid() && hasher.data.Clamped() && hasher.data.sigBytes < 64
      invariant fresh(hasher) && fresh(hasher.data)
      invariant hasher.message == Joined(chunks[..i])
    {
      var chunk := HexEncoding.ParseLatin1(chunks[i]);
      SameBytes(chunks[i]);
      hasher.Update(chunk);
      JoinedAppend(chunks[..i], chunks[i]);
      assert chunks[..i + 1] == chunks[..i] + [chunks[i]];
    }
    assert chunks[..|chunks|] == chunks;
    var end := HexEncoding.ParseLatin1(last);
    SameBytes(last);
    digest := hasher.Finalize(end);
  }

  lemma EmptyJoined(chunks: seq<seq<byte>>)
    ensures Joined(chunks[..0]) == []
  {
  }

  lemma SameBytes(b: seq<byte>)
    ensures HexEncoding.LowBytes(b) == b
  {
  }

  /** CryptoJS.MD5 of a message given at once: a new hasher finalized with it. */
  method Md5OfMessage(message: WordArray) returns (digest: WordArray)
    requires message.sigBytes < 0x1_0000_0000
    ensures PadsRight(Copied(message.words, message.sigBytes), message.sigBytes) ==>
      digest.Bytes() == Digest(message.Bytes())
    ensures message.Clamped() && 8 * message.sigBytes + 64 < 0x1_0000_0000 ==> digest.Bytes() == Digest(message.Bytes())
  {
    hide BytesOf, Digest, Clean, PadsRight, Copied;
    var hasher := new Hasher();
    digest := hasher.Finalize(message);
    assert [] + message.Bytes() == message.Bytes();
  }
}
