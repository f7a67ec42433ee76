/** JavaScript's 32-bit operators on numbers.

    Every bitwise operator first reduces its operands to 32 bits.  Numbers that hold integers are modelled by `int`;
    the reduction is written out as `U32` (to 0 .. 2^32-1) and `I32` (to -2^31 .. 2^31-1).  The bit patterns themselves
    are combined by `BitAnd`, `BitOr` and `BitXor`, which are defined on natural numbers one binary digit at a time. */
module JsNumber {

  type uint32 = x: int | 0 <= x < 0x1_0000_0000

  type uint64 = x: int | 0 <= x < 0x1_0000_0000_0000_0000

  // A UTF-16 code unit of a string.
  type CodeUnit = c: int | 0 <= c < 0x1_0000

  // ---------------------------------------------------------------- hexadecimal digits

  function HexDigit(d: nat): (c: char)
    requires d < 16
  {
    "0123456789abcdef"[d]
  }

  predicate IsHexDigit(c: char)
  {
    '0' <= c <= '9' || 'a' <= c <= 'f' || 'A' <= c <= 'F'
  }

  function HexValue(c: char): (d: nat)
    ensures d < 16
  {
    if '0' <= c <= '9' then (c - '0') as nat
    else if 'a' <= c <= 'f' then (c - 'a') as nat + 10
    else if 'A' <= c <= 'F' then (c - 'A') as nat + 10
    else 0
  }

  lemma HexDigitRoundTrip(d: nat)
    requires d < 16
    ensures IsHexDigit(HexDigit(d)) && HexValue(HexDigit(d)) == d
  {
  }

  // ---------------------------------------------------------------- powers of two

  function Pow2(n: nat): (p: nat)
    ensures p >= 1
  {
    if n == 0 then 1 else 2 * Pow2(n - 1)
  }

  lemma {:induction false} Pow2Add(m: nat, n: nat)
    ensures Pow2(m + n) == Pow2(m) * Pow2(n)
  {
    if m > 0 {
      Pow2Add(m - 1, n);
      assert Pow2(m + n) == 2 * Pow2(m - 1 + n);
      assert 2 * (Pow2(m - 1) * Pow2(n)) == (2 * Pow2(m - 1)) * Pow2(n);
    }
  }

  lemma Pow2Values()
    ensures Pow2(0) == 1 && Pow2(1) == 2 && Pow2(4) == 16 && Pow2(8) == 0x100 && Pow2(16) == 0x1_0000
    ensures Pow2(24) == 0x100_0000 && Pow2(28) == 0x1000_0000
    ensures Pow2(32) == 0x1_0000_0000 && Pow2(33) == 0x2_0000_0000
    ensures Pow2(40) == 0x100_0000_0000 && Pow2(48) == 0x1_0000_0000_0000
    ensures Pow2(56) == 0x100_0000_0000_0000 && Pow2(64) == 0x1_0000_0000_0000_0000
  {
  }

  // The low n bits, and what is left after dropping them.
  function Low(x: nat, n: nat): (r: nat)
    ensures r < Pow2(n)
  {
    if n == 0 then 0 else x % 2 + 2 * Low(x / 2, n - 1)
  }

  function High(x: nat, n: nat): nat
  {
    if n == 0 then x else High(x / 2, n - 1)
  }

  // The number with low n bits b and the rest a.
  function Glue(a: nat, n: nat, b: nat): nat
  {
    a * Pow2(n) + b
  }

  lemma MulAssoc(a: int, b: int, c: int)
    ensures a * (b * c) == b * (a * c) == (a * b) * c
  {
  }

  lemma Double(a: nat, n: nat)
    requires n > 0
    ensures a * Pow2(n) == 2 * (a * Pow2(n - 1))
  {
    MulAssoc(a, 2, Pow2(n - 1));
  }

  lemma HalveGlue(a: nat, n: nat, b: nat)
    requires n > 0
    ensures Glue(a, n, b) % 2 == b % 2
    ensures Glue(a, n, b) / 2 == Glue(a, n - 1, b / 2)
  {
    Double(a, n);
    var x := a * Pow2(n - 1);
    assert (2 * x + b) / 2 == x + b / 2;
  }

  // Glue is the inverse of taking High and Low.
  lemma {:induction false} GlueParts(a: nat, n: nat, b: nat)
    requires b < Pow2(n)
    ensures High(Glue(a, n, b), n) == a && Low(Glue(a, n, b), n) == b
  {
    if n > 0 {
      HalveGlue(a, n, b);
      GlueParts(a, n - 1, b / 2);
    }
  }

  lemma {:induction false} PartsGlue(x: nat, n: nat)
    ensures Glue(High(x, n), n, Low(x, n)) == x
  {
    if n > 0 {
      PartsGlue(x / 2, n - 1);
      Double(High(x, n), n);
    }
  }

  lemma {:induction false} HighHigh(x: nat, m: nat, n: nat)
    ensures High(High(x, m), n) == High(x, m + n)
  {
    if m > 0 { HighHigh(x / 2, m - 1, n); }
  }

  lemma {:induction false} HighBound(a: nat, m: nat, n: nat)
    requires a < Pow2(m + n)
    ensures High(a, m) < Pow2(n)
  {
    if m > 0 { HighBound(a / 2, m - 1, n); }
  }

  lemma GlueBound(a: nat, m: nat, b: nat, n: nat)
    requires a < Pow2(m) && b < Pow2(n)
    ensures Glue(a, n, b) < Pow2(m + n)
  {
    Pow2Add(m, n);
    Distrib(Pow2(m), a, Pow2(n));
    MulAtLeast(Pow2(m) - a, Pow2(n));
  }

  // Glue is associative, and High and Low reach into its parts.
  lemma GlueGlue(a: nat, m: nat, b: nat, n: nat, c: nat)
    ensures Glue(Glue(a, m, b), n, c) == Glue(a, m + n, Glue(b, n, c))
  {
    Pow2Add(m, n);
    MulAssoc(a, Pow2(m), Pow2(n));
    Distrib(a * Pow2(m), b, Pow2(n));
  }

  lemma {:induction false} LowAll(x: nat, n: nat)
    requires x < Pow2(n)
    ensures Low(x, n) == x && High(x, n) == 0
  {
    if n > 0 { LowAll(x / 2, n - 1); }
  }

  lemma {:induction false} HighSmaller(x: nat, n: nat)
    ensures High(x, n) <= x
  {
    if n > 0 { HighSmaller(x / 2, n - 1); }
  }

  // Quotient and remainder are unique.
  lemma ModUnique(x: int, m: int, q: int, r: int)
    requires 0 <= r < m && x == q * m + r
    ensures x / m == q && x % m == r
  {
    DivMod(x, m);
    QuotientUnique(m, q, r, x / m, x % m);
  }

  lemma DivMod(x: int, m: int)
    requires m > 0
    ensures x == (x / m) * m + x % m && 0 <= x % m < m
  {
  }

  lemma QuotientUnique(m: int, q: int, r: int, q': int, r': int)
    requires 0 <= r < m && 0 <= r' < m && q * m + r == q' * m + r'
    ensures q == q' && r == r'
  {
    Distrib(q, q', m);
    Distrib(q', q, m);
    if q > q' { MulAtLeast(q - q', m); }
    if q < q' { MulAtLeast(q' - q, m); }
  }

  lemma MulAtLeast(k: int, m: int)
    requires k >= 1 && m >= 0
    ensures k * m >= m
  {
    assert (k - 1) * m >= 0;
  }

  lemma Distrib(a: int, b: int, m: int)
    ensures (a - b) * m == a * m - b * m
    ensures (a + b) * m == a * m + b * m
  {
  }

  // ---------------------------------------------------------------- bit patterns

  function BitAnd(a: nat, b: nat): nat
  {
    if a == 0 || b == 0 then 0
    else (if a % 2 == 1 && b % 2 == 1 then 1 else 0) + 2 * BitAnd(a / 2, b / 2)
  }

  function BitOr(a: nat, b: nat): nat
    decreases a + b
  {
    if a == 0 && b == 0 then 0
    else (if a % 2 == 1 || b % 2 == 1 then 1 else 0) + 2 * BitOr(a / 2, b / 2)
  }

  function BitXor(a: nat, b: nat): nat
    decreases a + b
  {
    if a == 0 && b == 0 then 0
    else (if a % 2 != b % 2 then 1 else 0) + 2 * BitXor(a / 2, b / 2)
  }

  lemma {:induction false} AndSplit(a: nat, b: nat, c: nat, d: nat, k: nat)
    requires b < Pow2(k) && d < Pow2(k)
    ensures BitAnd(Glue(a, k, b), Glue(c, k, d)) == Glue(BitAnd(a, c), k, BitAnd(b, d))
  {
    if k > 0 {
      HalveGlue(a, k, b);
      HalveGlue(c, k, d);
      AndSplit(a, b / 2, c, d / 2, k - 1);
      Double(BitAnd(a, c), k);
      AndStep(Glue(a, k, b), Glue(c, k, d));
      AndStep(b, d);
    }
  }

  // The unfolding of BitAnd also holds when an operand is zero.
  lemma AndStep(a: nat, b: nat)
    ensures BitAnd(a, b) == (if a % 2 == 1 && b % 2 == 1 then 1 else 0) + 2 * BitAnd(a / 2, b / 2)
  {
  }

  lemma {:induction false} OrSplit(a: nat, b: nat, c: nat, d: nat, k: nat)
    requires b < Pow2(k) && d < Pow2(k)
    ensures BitOr(Glue(a, k, b), Glue(c, k, d)) == Glue(BitOr(a, c), k, BitOr(b, d))
  {
    if k > 0 {
      HalveGlue(a, k, b);
      HalveGlue(c, k, d);
      OrSplit(a, b / 2, c, d / 2, k - 1);
      Double(BitOr(a, c), k);
      OrStep(Glue(a, k, b), Glue(c, k, d));
      OrStep(b, d);
    }
  }

  lemma OrStep(a: nat, b: nat)
    ensures BitOr(a, b) == (if a % 2 == 1 || b % 2 == 1 then 1 else 0) + 2 * BitOr(a / 2, b / 2)
  {
  }

  lemma {:induction false} XorSplit(a: nat, b: nat, c: nat, d: nat, k: nat)
    requires b < Pow2(k) && d < Pow2(k)
    ensures BitXor(Glue(a, k, b), Glue(c, k, d)) == Glue(BitXor(a, c), k, BitXor(b, d))
  {
    if k > 0 {
      HalveGlue(a, k, b);
      HalveGlue(c, k, d);
      XorSplit(a, b / 2, c, d / 2, k - 1);
      Double(BitXor(a, c), k);
      XorStep(Glue(a, k, b), Glue(c, k, d));
      XorStep(b, d);
    }
  }

  lemma XorStep(a: nat, b: nat)
    ensures BitXor(a, b) == (if a % 2 != b % 2 then 1 else 0) + 2 * BitXor(a / 2, b / 2)
  {
  }

  lemma {:induction false} OrZero(a: nat)
    ensures BitOr(a, 0) == a && BitOr(0, a) == a
  {
    if a > 0 { OrZero(a / 2); }
  }

  lemma {:induction false} XorZero(a: nat)
    ensures BitXor(a, 0) == a && BitXor(0, a) == a
  {
    if a > 0 { XorZero(a / 2); }
  }

  // Or and xor of numbers whose bits do not overlap glue them together.
  lemma OrGlue(a: nat, d: nat, k: nat)
    requires d < Pow2(k)
    ensures BitOr(Glue(a, k, 0), d) == Glue(a, k, d) == BitOr(d, Glue(a, k, 0))
  {
    OrSplit(a, 0, 0, d, k);
    OrSplit(0, d, a, 0, k);
    OrZero(a);
    OrZero(d);
  }

  lemma XorGlue(a: nat, d: nat, k: nat)
    requires d < Pow2(k)
    ensures BitXor(Glue(a, k, 0), d) == Glue(a, k, d)
  {
    XorSplit(a, 0, 0, d, k);
    XorZero(a);
    XorZero(d);
  }

  // Masking with 2^k - 1 keeps the low k bits.
  lemma {:induction false} AndOnes(a: nat, k: nat)
    ensures BitAnd(a, Pow2(k) - 1) == Low(a, k)
  {
    if k > 0 {
      AndStep(a, Pow2(k) - 1);
      AndOnes(a / 2, k - 1);
      var p := Pow2(k - 1);
      assert (2 * p - 1) / 2 == p - 1 && (2 * p - 1) % 2 == 1;
    }
  }

  lemma {:induction false} XorBound(a: nat, b: nat, k: nat)
    requires a < Pow2(k) && b < Pow2(k)
    ensures BitXor(a, b) < Pow2(k)
  {
    if k > 0 {
      XorStep(a, b);
      XorBound(a / 2, b / 2, k - 1);
    }
  }

  lemma {:induction false} OrBound(a: nat, b: nat, k: nat)
    requires a < Pow2(k) && b < Pow2(k)
    ensures BitOr(a, b) < Pow2(k)
  {
    if k > 0 {
      OrStep(a, b);
      OrBound(a / 2, b / 2, k - 1);
    }
  }

  lemma {:induction false} AndBound(a: nat, b: nat)
    ensures BitAnd(a, b) <= a && BitAnd(a, b) <= b
  {
    if a > 0 && b > 0 {
      AndBound(a / 2, b / 2);
    }
  }

  lemma {:induction false} OrCommutes(a: nat, b: nat)
    ensures BitOr(a, b) == BitOr(b, a)
    decreases a + b
  {
    if a > 0 || b > 0 {
      OrCommutes(a / 2, b / 2);
    }
  }

  // Xor with a fixed pattern undoes itself.
  lemma {:induction false} XorUndo(a: nat, b: nat)
    ensures BitXor(BitXor(a, b), b) == a
    decreases a + b
  {
    if a > 0 || b > 0 {
      XorUndo(a / 2, b / 2);
      var x := BitXor(a, b);
      XorStep(a, b);
      assert x / 2 == BitXor(a / 2, b / 2);
      XorStep(x, b);
    }
  }

  // Dropping the low k bits commutes with xor.
  lemma {:induction false} XorHigh(a: nat, b: nat, k: nat)
    ensures High(BitXor(a, b), k) == BitXor(High(a, k), High(b, k))
  {
    if k > 0 {
      XorStep(a, b);
      XorHigh(a / 2, b / 2, k - 1);
    }
  }

  // ---------------------------------------------------------------- the operators

  // ToUint32
  function U32(x: int): (r: uint32)
  {
    x % 0x1_0000_0000
  }

  // ToInt32
  function I32(x: int): (r: int)
    ensures -0x8000_0000 <= r < 0x8000_0000
    ensures U32(r) == U32(x)
  {
    var u := U32(x);
    if u >= 0x8000_0000 then u - 0x1_0000_0000 else u
  }

  // x << n
  function Shl(x: int, n: int): (r: int)
  {
    I32(U32(x) * Pow2(n % 32))
  }

  // x >>> n
  function Shr(x: int, n: int): (r: nat)
  {
    High(U32(x), n % 32)
  }

  // x & y
  function And(x: int, y: int): (r: int)
  {
    I32(BitAnd(U32(x), U32(y)))
  }

  // x | y
  function Or(x: int, y: int): (r: int)
  {
    I32(BitOr(U32(x), U32(y)))
  }

  // x ^ y
  function Xor(x: int, y: int): (r: int)
  {
    I32(BitXor(U32(x), U32(y)))
  }

  // ~x
  function Not(x: int): (r: int)
  {
    -1 - I32(x)
  }

  lemma U32Xor(x: int, y: int)
    ensures U32(Xor(x, y)) == BitXor(U32(x), U32(y))
  {
    Pow2Values();
    XorBound(U32(x), U32(y), 32);
  }

  lemma U32Or(x: int, y: int)
    ensures U32(Or(x, y)) == BitOr(U32(x), U32(y))
  {
    Pow2Values();
    OrBound(U32(x), U32(y), 32);
  }

  lemma U32And(x: int, y: int)
    ensures U32(And(x, y)) == BitAnd(U32(x), U32(y))
  {
    AndBound(U32(x), U32(y));
  }

  // The same number written with the power of two as a constant.
  lemma GlueIs(a: nat, n: nat, p: nat, b: nat)
    requires Pow2(n) == p
    ensures Glue(a, n, b) == a * p + b
  {
  }

  lemma ShlIs(x: int, n: nat, p: nat)
    requires n < 32 && Pow2(n) == p
    ensures U32(Shl(x, n)) == U32(U32(x) * p)
  {
  }

  lemma Small(x: int)
    requires 0 <= x < 0x8000_0000
    ensures U32(x) == x == I32(x)
  {
  }

  // ((x << 16) | y) puts two 16-bit halves together.
  lemma JoinHalves(x: int, y: int)
    requires 0 <= x < 0x1_0000 && 0 <= y < 0x1_0000
    ensures U32(Or(Shl(x, 16), y)) == x * 0x1_0000 + y
  {
    hide Or, Shl, BitOr;
    assert U32(Shl(x, 16)) == x * 0x1_0000 by {
      Pow2Values();
      ShlIs(x, 16, 0x1_0000);
      Small(x);
    }
    U32Or(Shl(x, 16), y);
    assert BitOr(x * 0x1_0000, y) == x * 0x1_0000 + y by {
      Pow2Values();
      OrIsSum(x, y, 16, 0x1_0000);
    }
    Small(y);
  }

  lemma OrIsSum(a: nat, d: nat, n: nat, p: nat)
    requires Pow2(n) == p && d < p
    ensures BitOr(a * p, d) == a * p + d == BitOr(d, a * p)
  {
    OrGlue(a, d, n);
  }

  // x >>> n and x & (2^n - 1) as quotient and remainder.
  lemma LowIs(x: nat, n: nat, p: nat)
    requires Pow2(n) == p
    ensures Low(x, n) == x % p && High(x, n) == x / p
  {
    PartsGlue(x, n);
    ModUnique(x, p, High(x, n), Low(x, n));
  }

  lemma Shifts(x: int)
    ensures Shr(x, 4) == U32(x) / 0x10 && Shr(x, 8) == U32(x) / 0x100
    ensures Shr(x, 16) == U32(x) / 0x1_0000 && Shr(x, 24) == U32(x) / 0x100_0000
  {
    var u := U32(x);
    LowIs(u, 4, 0x10);
    LowIs(u, 8, 0x100);
    LowIs(u, 16, 0x1_0000);
    LowIs(u, 24, 0x100_0000);
  }

  lemma MaskIsLow(x: int, n: nat, p: nat)
    requires Pow2(n) == p <= 0x8000_0000
    ensures And(x, p - 1) == Low(U32(x), n)
  {
    AndOnes(U32(x), n);
    Small(p - 1);
    Small(Low(U32(x), n));
  }

  lemma Masks(x: int)
    ensures And(x, 0xf) == U32(x) % 0x10 && And(x, 0xff) == U32(x) % 0x100
    ensures And(x, 0xffff) == U32(x) % 0x1_0000 && And(x, 0xfff_ffff) == U32(x) % 0x1000_0000
  {
    LowsAre(U32(x));
    Pow2Values();
    MaskIsLow(x, 4, 0x10);
    MaskIsLow(x, 8, 0x100);
    MaskIsLow(x, 16, 0x1_0000);
    MaskIsLow(x, 28, 0x1000_0000);
  }

  lemma LowsAre(u: nat)
    ensures Low(u, 4) == u % 0x10 && Low(u, 8) == u % 0x100
    ensures Low(u, 16) == u % 0x1_0000 && Low(u, 28) == u % 0x1000_0000
  {
    LowIs(u, 4, 0x10);
    LowIs(u, 8, 0x100);
    LowIs(u, 16, 0x1_0000);
    assert Pow2(28) == 0x1000_0000 by { Pow2Values(); }
    LowIs(u, 28, 0x1000_0000);
  }

  lemma ShlIsGlue(x: int, n: nat)
    requires n < 32
    ensures U32(Shl(x, n)) == Glue(Low(U32(x), 32 - n), n, 0)
  {
    var u := U32(x);
    var h, l := High(u, 32 - n), Low(u, 32 - n);
    assert Pow2(32) == 0x1_0000_0000 by { Pow2Values(); }
    PartsGlue(u, 32 - n);
    GlueGlue(h, 32 - n, l, n, 0);
    GlueBound(l, 32 - n, 0, n);
    ModUnique(u * Pow2(n), Pow2(32), h, Glue(l, n, 0));
    ShlIs(x, n, Pow2(n));
  }

  // (x << n) | (y >>> (32 - n)) moves the top n bits of y in behind the low bits of x.
  lemma ShiftIn(x: int, y: int, n: nat)
    requires 0 < n < 32
    ensures U32(Or(Shl(x, n), Shr(y, 32 - n))) == Glue(Low(U32(x), 32 - n), n, High(U32(y), 32 - n))
  {
    hide Glue, Low, High, Or, Shl, BitOr;
    assert Pow2(32) == 0x1_0000_0000 by { Pow2Values(); }
    var h := High(U32(y), 32 - n);
    HighBound(U32(y), 32 - n, n);
    HighSmaller(U32(y), 32 - n);
    ShlIsGlue(x, n);
    U32Or(Shl(x, n), h);
    assert U32(h) == h;
    OrGlue(Low(U32(x), 32 - n), h, n);
  }
}
