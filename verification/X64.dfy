/** The 64-bit arithmetic that the fingerprint hash emulates on pairs of 32-bit words.

    A word of either half may be held as a signed or as an unsigned number; only its 32-bit pattern matters, and
    `Val` is the 64-bit number that a pair stands for. */
module X64 {
  import opened JsNumber

  datatype Word64 = Word64(hi: int, lo: int)

  function Val(w: Word64): (v: uint64)
  {
    U32(w.hi) * 0x1_0000_0000 + U32(w.lo)
  }

  // ---------------------------------------------------------------- what the operations mean

  function Add64(a: uint64, b: uint64): uint64
  {
    (a + b) % 0x1_0000_0000_0000_0000
  }

  function Mul64(a: uint64, b: uint64): uint64
  {
    (a * b) % 0x1_0000_0000_0000_0000
  }

  function Xor64(a: uint64, b: uint64): uint64
  {
    assert Pow2(64) == 0x1_0000_0000_0000_0000 by { Pow2Values(); }
    XorBound(a, b, 64);
    BitXor(a, b)
  }

  // Rotation exchanges the top n bits with the rest.
  function Rotl64(a: uint64, n: nat): uint64
    requires n <= 64
  {
    Pow2Add(n, 64 - n);
    RotlBound(a, n);
    Glue(Low(a, 64 - n), n, High(a, 64 - n))
  }

  function Shl64(a: uint64, n: nat): uint64
    requires n <= 64
  {
    Shl64Bound(a, n);
    Glue(Low(a, 64 - n), n, 0)
  }

  lemma Shl64Bound(a: uint64, n: nat)
    requires n <= 64
    ensures 0 <= Glue(Low(a, 64 - n), n, 0) < 0x1_0000_0000_0000_0000
  {
    assert Pow2(64) == 0x1_0000_0000_0000_0000 by { Pow2Values(); }
    GlueBound(Low(a, 64 - n), 64 - n, 0, n);
  }

  // Shl64 multiplies by 2^n and keeps 64 bits.
  lemma Shl64IsProduct(a: uint64, n: nat)
    requires n <= 64
    ensures Shl64(a, n) == (a * Pow2(n)) % 0x1_0000_0000_0000_0000
  {
    assert Pow2(64) == 0x1_0000_0000_0000_0000 by { Pow2Values(); }
    PartsGlue(a, 64 - n);
    GlueGlue(High(a, 64 - n), 64 - n, Low(a, 64 - n), n, 0);
    ModUnique(a * Pow2(n), Pow2(64), High(a, 64 - n), Shl64(a, n));
  }

  lemma RotlBound(a: uint64, n: nat)
    requires n <= 64
    ensures Low(a, 64 - n) < Pow2(64 - n) && High(a, 64 - n) < Pow2(n)
    ensures 0 <= Glue(Low(a, 64 - n), n, High(a, 64 - n)) < 0x1_0000_0000_0000_0000
  {
    assert Pow2(64) == 0x1_0000_0000_0000_0000 by { Pow2Values(); }
    HighBound(a, 64 - n, n);
    GlueBound(Low(a, 64 - n), 64 - n, High(a, 64 - n), n);
  }

  lemma {:induction false} HighOfGlue(a: nat, m: nat, b: nat, k: nat)
    requires b < Pow2(m) && k <= m
    ensures High(Glue(a, m, b), k) == Glue(a, m - k, High(b, k))
    ensures Low(Glue(a, m, b), k) == Low(b, k)
  {
    if k > 0 {
      HalveGlue(a, m, b);
      HighOfGlue(a, m - 1, b / 2, k - 1);
    }
  }

  lemma {:induction false} LowOfGlue(a: nat, m: nat, b: nat, k: nat)
    requires b < Pow2(m)
    ensures Low(Glue(a, m, b), m + k) == Glue(Low(a, k), m, b)
  {
    if m > 0 {
      HalveGlue(a, m, b);
      LowOfGlue(a, m - 1, b / 2, k);
      Double(Low(a, k), m);
    }
  }

  // ---------------------------------------------------------------- limbs

  /** The 16-bit limbs of a word, most significant first. */
  datatype Limbs = Limbs(l0: int, l1: int, l2: int, l3: int) {
    ghost predicate Valid() {
      0 <= l0 < 0x1_0000 && 0 <= l1 < 0x1_0000 && 0 <= l2 < 0x1_0000 && 0 <= l3 < 0x1_0000
    }

    ghost function Value(): int {
      l0 * 0x1_0000_0000_0000 + l1 * 0x1_0000_0000 + l2 * 0x1_0000 + l3
    }
  }

  method Split(w: Word64) returns (l: Limbs)
    ensures l.Valid() && l.Value() == Val(w)
  {
    Halves(w.hi);
    Halves(w.lo);
    l := Limbs(Shr(w.hi, 16), And(w.hi, 0xffff), Shr(w.lo, 16), And(w.lo, 0xffff));
  }

  // The number that four limbs add up to, however large each of them is.
  ghost function Sum(o: array<int>): int
    requires o.Length == 4
    reads o
  {
    o[0] * 0x1_0000_0000_0000 + o[1] * 0x1_0000_0000 + o[2] * 0x1_0000 + o[3]
  }

  method Join(o: array<int>) returns (w: Word64)
    requires o.Length == 4
    requires forall i :: 0 <= i < 4 ==> 0 <= o[i] < 0x1_0000
    ensures Val(w) == Sum(o)
  {
    JoinHalves(o[0], o[1]);
    JoinHalves(o[2], o[3]);
    w := Word64(Or(Shl(o[0], 16), o[1]), Or(Shl(o[2], 16), o[3]));
  }

  // `x >>> 16` and `x & 0xffff` are the two halves of the 32-bit pattern of x, hence of x itself when it fits 32 bits.
  lemma Halves(x: int)
    ensures U32(x) == Shr(x, 16) * 0x1_0000 + And(x, 0xffff)
    ensures 0 <= And(x, 0xffff) < 0x1_0000 && 0 <= Shr(x, 16) < 0x1_0000
  {
    hide And, Shr, U32;
    Shifts(x);
    Masks(x);
    DivMod(U32(x), 0x1_0000);
  }

  // o[k] += v; o[k - 1] += o[k] >>> 16; o[k] &= 0xffff
  method Accumulate(o: array<int>, k: nat, v: int)
    requires o.Length == 4 && 1 <= k < 4
    requires 0 <= o[k] + v < 0x1_0000_0000
    modifies o
    ensures k == 1 ==> Sum(o) == old(Sum(o)) + v * 0x1_0000_0000
    ensures k == 2 ==> Sum(o) == old(Sum(o)) + v * 0x1_0000
    ensures k == 3 ==> Sum(o) == old(Sum(o)) + v
    ensures 0 <= o[k] < 0x1_0000 && old(o[k - 1]) <= o[k - 1] < old(o[k - 1]) + 0x1_0000
    ensures forall i :: 0 <= i < 4 && i != k && i != k - 1 ==> o[i] == old(o[i])
  {
    o[k] := o[k] + v;
    Halves(o[k]);
    assert U32(o[k]) == o[k];
    o[k - 1] := o[k - 1] + Shr(o[k], 16);
    o[k] := And(o[k], 0xffff);
  }

  // o[0] += v; o[0] &= 0xffff: what does not fit is a multiple of 2^64, also when o[0] outgrows 32 bits.
  method AccumulateTop(o: array<int>, v: int)
    requires o.Length == 4
    requires 0 <= o[0] + v
    requires forall i :: 1 <= i < 4 ==> 0 <= o[i] < 0x1_0000
    modifies o
    ensures forall i :: 0 <= i < 4 ==> 0 <= o[i] < 0x1_0000
    ensures Sum(o) == (old(Sum(o)) + v * 0x1_0000_0000_0000) % 0x1_0000_0000_0000_0000
  {
    o[0] := o[0] + v;
    var x := o[0];
    ghost var s := Sum(o);
    ghost var top := TopLimb(x);
    hide And, U32;
    o[0] := And(x, 0xffff);
    ModUnique(s, 0x1_0000_0000_0000_0000, top, Sum(o));
  }

  lemma TopLimb(x: nat) returns (top: int)
    ensures x == top * 0x1_0000 + And(x, 0xffff) && 0 <= And(x, 0xffff) < 0x1_0000
  {
    Halves(x);
    hide And, Shr;
    top := (x / 0x1_0000_0000) * 0x1_0000 + Shr(x, 16);
    assert x == (x / 0x1_0000_0000) * 0x1_0000_0000 + U32(x);
  }

  lemma SumZero(o: array<int>)
    requires o.Length == 4 && forall i :: 0 <= i < 4 ==> o[i] == 0
    ensures Sum(o) == 0
  {
  }

  method X64Add(m: Word64, n: Word64) returns (r: Word64)
    ensures Val(r) == Add64(Val(m), Val(n))
  {
    hide U32, Val, Add64, Mul64, Sum;
    var m' := Split(m);
    var n' := Split(n);
    var o := new int[4] (_ => 0);
    assert Sum(o) == 0 by { SumZero(o); }
    Accumulate(o, 3, m'.l3 + n'.l3);
    Accumulate(o, 2, m'.l2 + n'.l2);
    Accumulate(o, 1, m'.l1 + n'.l1);
    ghost var s := Sum(o) + (m'.l0 + n'.l0) * 0x1_0000_0000_0000;
    AccumulateTop(o, m'.l0 + n'.l0);
    r := Join(o);
    SumMeans(Val(m), Val(n), m', n', s);
  }

  lemma SumMeans(a: uint64, b: uint64, m: Limbs, n: Limbs, s: int)
    requires a == m.Value() && b == n.Value() && s == m.Value() + n.Value()
    ensures s % 0x1_0000_0000_0000_0000 == Add64(a, b)
  {
  }

  function Times(a: int, b: int): int
  {
    a * b
  }

  method X64Multiply(m: Word64, n: Word64) returns (r: Word64)
    ensures Val(r) == Mul64(Val(m), Val(n))
  {
    hide U32, Val, Mul64, Sum, Times;
    var m' := Split(m);
    var n' := Split(n);
    ProductBounds(m', n');
    var o := new int[4] (_ => 0);
    assert Sum(o) == 0 by { SumZero(o); }
    Accumulate(o, 3, Times(m'.l3, n'.l3));
    Accumulate(o, 2, Times(m'.l2, n'.l3));
    Accumulate(o, 2, Times(m'.l3, n'.l2));
    Accumulate(o, 1, Times(m'.l1, n'.l3));
    Accumulate(o, 1, Times(m'.l2, n'.l2));
    Accumulate(o, 1, Times(m'.l3, n'.l1));
    ghost var s := Sum(o) + 0x1_0000_0000_0000
      * (Times(m'.l0, n'.l3) + Times(m'.l1, n'.l2) + Times(m'.l2, n'.l1) + Times(m'.l3, n'.l0));
    AccumulateTop(o, Times(m'.l0, n'.l3) + Times(m'.l1, n'.l2) + Times(m'.l2, n'.l1) + Times(m'.l3, n'.l0));
    r := Join(o);
    ProductMeans(Val(m), Val(n), m', n', s);
  }

  // The products the code keeps; the ones it leaves out are multiples of 2^64.
  ghost function Kept(m: Limbs, n: Limbs): int
  {
    (Times(m.l0, n.l3) + Times(m.l1, n.l2) + Times(m.l2, n.l1) + Times(m.l3, n.l0)) * 0x1_0000_0000_0000
    + (Times(m.l1, n.l3) + Times(m.l2, n.l2) + Times(m.l3, n.l1)) * 0x1_0000_0000
    + (Times(m.l2, n.l3) + Times(m.l3, n.l2)) * 0x1_0000
    + Times(m.l3, n.l3)
  }

  ghost function LeftOut(m: Limbs, n: Limbs): int
  {
    (m.l0 * n.l0) * 0x1_0000_0000
    + (m.l0 * n.l1 + m.l1 * n.l0) * 0x1_0000
    + (m.l0 * n.l2 + m.l1 * n.l1 + m.l2 * n.l0)
  }

  lemma Products(m: Limbs, n: Limbs)
    ensures m.Value() * n.Value() == LeftOut(m, n) * 0x1_0000_0000_0000_0000 + Kept(m, n)
  {
  }

  lemma ProductMeans(a: uint64, b: uint64, m: Limbs, n: Limbs, s: int)
    requires a == m.Value() && b == n.Value() && s == Kept(m, n)
    ensures s % 0x1_0000_0000_0000_0000 == Mul64(a, b)
  {
    Products(m, n);
    SameRemainder(s, LeftOut(m, n), a * b);
  }

  lemma SameRemainder(s: int, q: int, x: int)
    requires x == q * 0x1_0000_0000_0000_0000 + s
    ensures s % 0x1_0000_0000_0000_0000 == x % 0x1_0000_0000_0000_0000
  {
  }

  lemma MulOrder(a: int, c: int, b: int)
    requires 0 <= a <= c && 0 <= b
    ensures 0 <= a * b <= c * b
  {
  }

  lemma ProductBound(a: int, b: int)
    requires 0 <= a < 0x1_0000 && 0 <= b < 0x1_0000
    ensures 0 <= a * b <= 0xffff * 0xffff
  {
    assert a * b <= 0xffff * b by {
      MulOrder(a, 0xffff, b);
    }
  }

  lemma ProductBounds(m: Limbs, n: Limbs)
    requires m.Valid() && n.Valid()
    ensures 0 <= Times(m.l3, n.l3) <= 0xffff * 0xffff
    ensures 0 <= Times(m.l2, n.l3) <= 0xffff * 0xffff && 0 <= Times(m.l3, n.l2) <= 0xffff * 0xffff
    ensures 0 <= Times(m.l1, n.l3) <= 0xffff * 0xffff && 0 <= Times(m.l2, n.l2) <= 0xffff * 0xffff
    ensures 0 <= Times(m.l3, n.l1) <= 0xffff * 0xffff
    ensures 0 <= Times(m.l0, n.l3) <= 0xffff * 0xffff && 0 <= Times(m.l1, n.l2) <= 0xffff * 0xffff
    ensures 0 <= Times(m.l2, n.l1) <= 0xffff * 0xffff && 0 <= Times(m.l3, n.l0) <= 0xffff * 0xffff
  {
    ProductBound(m.l3, n.l3);
    ProductBound(m.l2, n.l3);
    ProductBound(m.l3, n.l2);
    ProductBound(m.l1, n.l3);
    ProductBound(m.l2, n.l2);
    ProductBound(m.l3, n.l1);
    ProductBound(m.l0, n.l3);
    ProductBound(m.l1, n.l2);
    ProductBound(m.l2, n.l1);
    ProductBound(m.l3, n.l0);
  }

  // ---------------------------------------------------------------- shifts, rotation, xor

  function X64Rotl(m: Word64, n: nat): Word64
  {
    var n := n % 64;
    if n == 32 then Word64(m.lo, m.hi)
    else if n < 32 then
      Word64(Or(Shl(m.hi, n), Shr(m.lo, 32 - n)), Or(Shl(m.lo, n), Shr(m.hi, 32 - n)))
    else
      var n := n - 32;
      Word64(Or(Shl(m.lo, n), Shr(m.hi, 32 - n)), Or(Shl(m.hi, n), Shr(m.lo, 32 - n)))
  }

  function X64LeftShift(m: Word64, n: nat): Word64
  {
    var n := n % 64;
    if n == 0 then m
    else if n < 32 then Word64(Or(Shl(m.hi, n), Shr(m.lo, 32 - n)), Shl(m.lo, n))
    else Word64(Shl(m.lo, n - 32), 0)
  }

  function X64Xor(m: Word64, n: Word64): Word64
  {
    Word64(Xor(m.hi, n.hi), Xor(m.lo, n.lo))
  }

  lemma ValIsGlue(w: Word64)
    ensures Val(w) == Glue(U32(w.hi), 32, U32(w.lo)) && U32(w.lo) < Pow2(32)
  {
    Pow2Values();
    GlueIs(U32(w.hi), 32, 0x1_0000_0000, U32(w.lo));
  }

  lemma X64XorMeans(m: Word64, n: Word64)
    ensures Val(X64Xor(m, n)) == Xor64(Val(m), Val(n))
  {
    U32Xor(m.hi, n.hi);
    U32Xor(m.lo, n.lo);
    ValIsGlue(m);
    ValIsGlue(n);
    ValIsGlue(X64Xor(m, n));
    XorSplit(U32(m.hi), U32(m.lo), U32(n.hi), U32(n.lo), 32);
  }

  lemma X64LeftShiftMeans(m: Word64, n: nat)
    ensures Val(X64LeftShift(m, n)) == Shl64(Val(m), n % 64)
  {
    hide Glue, Low, High, Or, Shl, U32, Pow2;
    var n := n % 64;
    var h, l := U32(m.hi), U32(m.lo);
    ValIsGlue(m);
    ValIsGlue(X64LeftShift(m, n));
    if n == 0 {
      RotateNothing(Val(m));
    } else if n < 32 {
      ShiftIn(m.hi, m.lo, n);
      ShlIsGlue(m.lo, n);
      ShiftParts(h, l, n);
    } else {
      ShlIsGlue(m.lo, n - 32);
      HighOfGlue(h, 32, l, 64 - n);
      GlueGlue(Low(l, 64 - n), n - 32, 0, 32, 0);
      GlueNothing();
      Small(0);
    }
  }

  lemma ShiftParts(h: nat, l: nat, n: nat)
    requires 0 < n < 32 && l < Pow2(32)
    ensures Glue(Low(Glue(h, 32, l), 64 - n), n, 0)
      == Glue(Glue(Low(h, 32 - n), n, High(l, 32 - n)), 32, Glue(Low(l, 32 - n), n, 0))
  {
    hide Glue, Low, High, Pow2;
    var k := 32 - n;
    LowOfGlue(h, 32, l, k);
    PartsGlue(l, k);
    GlueGlue(Low(h, k), n, High(l, k), k, Low(l, k));
    GlueGlue(Glue(Low(h, k), n, High(l, k)), k, Low(l, k), n, 0);
  }

  lemma RotateNothing(a: uint64)
    ensures Rotl64(a, 0) == a == Shl64(a, 0)
  {
    hide Glue, Low, High;
    assert Pow2(64) == 0x1_0000_0000_0000_0000 by { Pow2Values(); }
    LowAll(a, 64);
    GlueZero(a);
  }

  lemma GlueNothing()
    ensures Glue(0, 32, 0) == 0
  {
  }

  lemma GlueZero(a: nat)
    ensures Glue(a, 0, 0) == a
  {
  }

  lemma RotateParts(h: nat, l: nat, n: nat)
    requires 0 < n < 32 && h < Pow2(32) && l < Pow2(32)
    ensures Glue(Low(Glue(h, 32, l), 64 - n), n, High(Glue(h, 32, l), 64 - n))
      == Glue(Glue(Low(h, 32 - n), n, High(l, 32 - n)), 32, Glue(Low(l, 32 - n), n, High(h, 32 - n)))
  {
    hide Glue, Low, High, Pow2;
    var k := 32 - n;
    LowOfGlue(h, 32, l, k);
    HighHigh(Glue(h, 32, l), 32, k);
    GlueParts(h, 32, l);
    PartsGlue(l, k);
    GlueGlue(Low(h, k), n, High(l, k), k, Low(l, k));
    GlueGlue(Glue(Low(h, k), n, High(l, k)), k, Low(l, k), n, High(h, k));
  }

  lemma RotatePartsFar(h: nat, l: nat, n: nat)
    requires 32 < n < 64 && h < Pow2(32) && l < Pow2(32)
    ensures Glue(Low(Glue(h, 32, l), 64 - n), n, High(Glue(h, 32, l), 64 - n))
      == Glue(Glue(Low(l, 64 - n), n - 32, High(h, 64 - n)), 32, Glue(Low(h, 64 - n), n - 32, High(l, 64 - n)))
  {
    hide Glue, Low, High, Pow2;
    var n', k := n - 32, 64 - n;
    HighOfGlue(h, 32, l, k);
    PartsGlue(h, k);
    GlueGlue(High(h, k), k, Low(h, k), n', High(l, k));
    GlueGlue(Low(l, k), n', High(h, k), 32, Glue(Low(h, k), n', High(l, k)));
  }

  // Rotation is right for every count that is not a multiple of 64.
  lemma X64RotlMeans(m: Word64, n: nat)
    requires n % 64 != 0
    ensures Val(X64Rotl(m, n)) == Rotl64(Val(m), n % 64)
  {
    hide Glue, Low, High, Or, Shl, Shr, U32, Pow2;
    var n := n % 64;
    ValIsGlue(m);
    ValIsGlue(Word64(m.lo, m.hi));
    ValIsGlue(X64Rotl(m, n));
    if n < 32 {
      ShiftIn(m.hi, m.lo, n);
      ShiftIn(m.lo, m.hi, n);
      RotateParts(U32(m.hi), U32(m.lo), n);
    } else if n == 32 {
      GlueParts(U32(m.hi), 32, U32(m.lo));
    } else {
      ShiftIn(m.hi, m.lo, n - 32);
      ShiftIn(m.lo, m.hi, n - 32);
      RotatePartsFar(U32(m.hi), U32(m.lo), n);
    }
  }

  // For a multiple of 64 the shift count 32 - 0 wraps to 0 and both halves come out or-ed together, so the rotation is
  // right exactly when the halves are equal.
  lemma X64RotlByZero(m: Word64, n: nat)
    requires n % 64 == 0
    ensures Val(X64Rotl(m, n)) == Rotl64(Val(m), 0) <==> U32(m.hi) == U32(m.lo)
  {
    hide Glue, Low, High, BitOr, Or, Shl, Shr, Rotl64, U32, Pow2;
    var h, l := U32(m.hi), U32(m.lo);
    RotateNothing(Val(m));
    ShiftByZero(m.hi);
    ShiftByZero(m.lo);
    U32Or(Shl(m.hi, 0), Shr(m.lo, 32));
    U32Or(Shl(m.lo, 0), Shr(m.hi, 32));
    OrCommutes(h, l);
    if h == l { OrSelf(h); }
  }

  /** x64Rotl rotates if and only if the count is not a multiple of 64 or the two halves are equal. */
  lemma X64RotlExactly(m: Word64, n: nat)
    ensures Val(X64Rotl(m, n)) == Rotl64(Val(m), n % 64) <==> n % 64 != 0 || U32(m.hi) == U32(m.lo)
  {
    hide *;
    if n % 64 == 0 {
      X64RotlByZero(m, n);
    } else {
      X64RotlMeans(m, n);
    }
  }

  /** Rotating 1 by 64 positions gives 2^32 + 1. */
  lemma RotlLosesOne()
    ensures Val(X64Rotl(Word64(0, 1), 64)) == 0x1_0000_0001 != Rotl64(1, 0)
  {
    hide Or, Shl, Shr, BitOr, Rotl64, Pow2, U32;
    RotateNothing(1);
    Small(0);
    Small(1);
    ShiftByZero(0);
    ShiftByZero(1);
    U32Or(Shl(0, 0), Shr(1, 32));
    U32Or(Shl(1, 0), Shr(0, 32));
    OrZero(1);
  }

  lemma ShiftByZero(x: int)
    ensures U32(Shl(x, 0)) == U32(x) == U32(Shr(x, 32))
  {
  }

  lemma {:induction false} OrSelf(a: nat)
    ensures BitOr(a, a) == a
  {
    if a > 0 { OrSelf(a / 2); }
  }
}
