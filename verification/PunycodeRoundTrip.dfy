/** Decoding undoes encoding.

    The encoder counts, between two insertions, how many insertion places it passes; the decoder adds that count to the
    place of its own last insertion.  `Related` ties the two together after every character of the input.  From it
    follows what decoding an encoding gives: the input itself exactly when the place number of every insertion fits 31
    bits (`Fits`), and an overflow error otherwise. */
module PunycodeRoundTrip {
  import opened JsNumber
  import opened Punycode

  // ---------------------------------------------------------------- code points and UTF-16

  lemma {:induction false} UnitsOfCodePoints(e: seq<CodeUnit>)
    ensures AllUnits(CodePoints(e)) == e
  {
    if e != [] {
      var s := CodePoints(e);
      if IsHigh(e[0]) && |e| > 1 && IsLow(e[1]) {
        var h, l := e[0] as int, e[1] as int;
        var c := (h % 0x400) * 0x400 + l % 0x400 + 0x1_0000;
        assert s[0] == c && s[1..] == CodePoints(e[2..]);
        assert Units(c) == [e[0], e[1]];
        UnitsOfCodePoints(e[2..]);
        assert e == [e[0], e[1]] + e[2..];
      } else {
        assert s[0] == e[0] && s[1..] == CodePoints(e[1..]);
        UnitsOfCodePoints(e[1..]);
        assert e == [e[0]] + e[1..];
      }
    }
  }

  // ---------------------------------------------------------------- the bias

  function Pow35(n: nat): nat
  {
    if n == 0 then 1 else 35 * Pow35(n - 1)
  }

  lemma {:induction false} ShrinkBound(e: int, a: int, n: nat)
    requires 0 <= e && 0 <= a && e <= 455 * Pow35(n)
    ensures 0 <= Shrink(e, a).0 <= 455 && 0 <= Shrink(e, a).1 <= a + 36 * n
    decreases n
  {
    if 455 < e {
      if n == 0 { assert false; }
      ShrinkBound(e / 35, a + 36, n - 1);
    }
  }

  lemma AdaptBound(delta: int, points: int, first: bool)
    requires 0 <= delta <= MAX_INT && points > 0
    ensures 0 <= Adapt(delta, points, first) <= 215
  {
    var e := if first then delta / 700 else delta / 2;
    assert I32(delta) == delta;
    DivAtMost(e, points);
    var s := e + e / points;
    assert Pow35(5) == 52521875;
    ShrinkBound(s, 0, 5);
    var e' := Shrink(s, 0).0;
    RatioBound(e');
  }

  lemma DivAtMost(e: int, p: int)
    requires e >= 0 && p > 0
    ensures 0 <= e / p <= e
    ensures e < p ==> e / p == 0
  {
    DivMod(e, p);
    if e / p < 0 { MulAtLeast(-(e / p), p); Distrib(0, e / p, p); }
    if e / p > e { MulAtLeast(p, e / p); }
    if e < p && e / p >= 1 { MulAtLeast(e / p, p); }
  }

  lemma RatioBound(e: int)
    requires 0 <= e
    ensures 0 <= 36 * e / (e + 38) <= 35
  {
    DivMod(36 * e, e + 38);
    var r := 36 * e / (e + 38);
    if r < 0 { MulAtLeast(-r, e + 38); Distrib(0, r, e + 38); }
    if r >= 36 { MulOrderly(36, r, e + 38); }
  }

  // For a delta smaller than both, the number of points does not matter.
  lemma AdaptIgnoresPoints(delta: int, w: int, points: int)
    requires 0 <= delta < w <= points && delta <= MAX_INT
    ensures Adapt(delta, w, false) == Adapt(delta, points, false)
  {
    hide Shrink, FloorDiv;
    assert I32(delta) == delta;
    DivAtMost(delta / 2, w);
    DivAtMost(delta / 2, points);
    assert delta / 2 / w == 0 == delta / 2 / points;
  }

  // ---------------------------------------------------------------- variable-length integers

  lemma DigitRoundTrip(d: int)
    requires 0 <= d < 36
    ensures DigitValue(DigitCode(d)) == d && DigitCode(d) != 0x2d
  {
  }

  // As long as the threshold has been 1 the weight is a power of 35.
  ghost predicate Weight(w: nat, k: int, bias: int)
  {
    && w > 0 && k >= 36 && k % 36 == 0
    && (k - 36 <= bias ==> w == Pow35(k / 36 - 1))
  }

  // The weight guard of the decoder never rejects a digit that the encoder follows with another one.
  lemma WeightFits(q: int, w: nat, k: int, bias: int)
    requires Weight(w, k, bias) && bias <= 215 && q * w <= MAX_INT
    requires q >= Threshold(k, bias)
    ensures w * (36 - Threshold(k, bias)) <= MAX_INT
    ensures Weight(w * (36 - Threshold(k, bias)), k + 36, bias)
  {
    var t := Threshold(k, bias);
    MulPositive(w, 36 - t);
    if bias + 26 <= k {
      MulOrder2(26, q, w);
    } else {
      assert k <= 216;
      var n := k / 36 - 1;
      SmallPowers(n);
      MulOrder2(36 - t, 35, w);
      assert k <= bias ==> w * 35 == Pow35(n + 1);
    }
  }

  lemma MulOrder2(a: int, b: int, w: nat)
    requires a <= b
    ensures a * w <= b * w
  {
  }

  lemma SmallPowers(n: int)
    requires 0 <= n <= 5
    ensures Pow35(n) <= 52521875
  {
    assert Pow35(0) == 1 && Pow35(1) == 35 && Pow35(2) == 1225 && Pow35(3) == 42875;
    assert Pow35(4) == 1500625 && Pow35(5) == 52521875;
  }

  // d > (limit - sum) / w tests whether sum + d * w exceeds the limit.
  lemma Guard(d: int, sum: int, w: nat, limit: nat)
    requires w > 0
    ensures d > (limit - sum) / w <==> sum + d * w > limit
  {
    var x := limit - sum;
    DivMod(x, w);
    if d > x / w { MulOrder2(x / w + 1, d, w); Distrib(x / w, 1, w); }
    else { MulOrder2(d, x / w, w); }
  }

  lemma WeightGuard(w: nat, m: nat, limit: nat)
    requires w > 0 && m > 0
    ensures w > limit / m <==> w * m > limit
  {
    Guard(w, 0, m, limit);
  }

  // One digit is read, the last one or not.
  lemma ReadDigit(input: seq<int>, u: nat, d: int, sum: int, w: nat, k: int, bias: int, limit: nat)
    requires u < |input| && DigitValue(input[u]) == d < 36 && w > 0
    ensures sum + d * w > limit ==> ReadInt(input, u, sum, w, k, bias, limit) == Failed(Overflow)
    ensures sum + d * w <= limit && d < Threshold(k, bias) ==>
      ReadInt(input, u, sum, w, k, bias, limit) == Got(u + 1, sum + d * w)
    ensures var m := 36 - Threshold(k, bias);
      sum + d * w <= limit && d >= Threshold(k, bias) && 0 < w * m <= limit ==>
      ReadInt(input, u, sum, w, k, bias, limit) == ReadInt(input, u + 1, sum + d * w, w * m, k + 36, bias, limit)
  {
    hide DigitValue;
    Guard(d, sum, w, limit);
    WeightGuard(w, 36 - Threshold(k, bias), limit);
  }

  // Reading back a written integer.
  lemma {:induction false} ReadVarInt(q: nat, input: seq<int>, u: nat, rest: seq<int>, sum: int, w: nat, k: int,
                                      bias: int, limit: nat)
    requires limit >= MAX_INT
    requires u <= |input| && input[u..] == VarInt(q, k, bias) + rest
    requires Weight(w, k, bias) && bias <= 215 && 0 <= sum && q * w <= MAX_INT
    ensures ReadInt(input, u, sum, w, k, bias, limit)
      == if sum + q * w <= limit then Got(|input| - |rest|, sum + q * w) else Failed(Overflow)
    decreases q
  {
    hide Shrink, Adapt, Pow35, ReadInt, DigitValue, DigitCode;
    var t := Threshold(k, bias);
    var digits := VarInt(q, k, bias);
    assert input[u] == input[u..][0] == digits[0];
    assert |input| - u == |digits| + |rest|;
    if q < t {
      DigitRoundTrip(q);
      ReadDigit(input, u, q, sum, w, k, bias, limit);
    } else {
      VarIntShrinks(q, t);
      var m := 36 - t;
      var d, q' := t + (q - t) % m, (q - t) / m;
      DivMod(q - t, m);
      DigitRoundTrip(d);
      WeightFits(q, w, k, bias);
      ReadDigit(input, u, d, sum, w, k, bias, limit);
      hide Weight;
      SplitDigit(q, d, q', m, w);
      assert input[u + 1..] == input[u..][1..] == VarInt(q', k + 36, bias) + rest;
      if sum + d * w <= limit {
        ReadVarInt(q', input, u + 1, rest, sum + d * w, w * m, k + 36, bias, limit);
      }
    }
  }

  lemma SplitDigit(q: int, d: int, q': int, m: int, w: nat)
    requires q == d + q' * m && q' >= 0 && m > 0 && d >= 0
    ensures q * w == d * w + q' * (w * m)
    ensures d * w >= 0 && q' * (w * m) >= 0
  {
    Distrib(d, q' * m, w);
    MulAssoc(q', w, m);
    assert q' * m * w == q' * (w * m);
    MulNonNegative(d, w);
    MulNonNegative(w, m);
    MulNonNegative(q', w * m);
  }

  lemma {:induction false} NoDashInVarInt(q: nat, k: int, bias: int)
    ensures 0x2d !in VarInt(q, k, bias) && |VarInt(q, k, bias)| > 0
    decreases q
  {
    var t := Threshold(k, bias);
    if q < t {
      DigitRoundTrip(q);
    } else {
      VarIntShrinks(q, t);
      DigitRoundTrip(t + (q - t) % (36 - t));
      NoDashInVarInt((q - t) / (36 - t), k + 36, bias);
    }
  }

  // ---------------------------------------------------------------- the characters inserted so far

  // The output of the decoder when the encoder stands before position j in its pass for code point m.
  function Kept(s: seq<int>, m: int, j: nat): seq<int>
    requires j <= |s|
  {
    Below(s[..j], m + 1) + Below(s[j..], m)
  }

  lemma {:induction false} BelowAppend(s: seq<int>, t: seq<int>, m: int)
    ensures Below(s + t, m) == Below(s, m) + Below(t, m)
  {
    if s == [] {
      assert s + t == t;
    } else {
      assert (s + t)[1..] == s[1..] + t;
      BelowAppend(s[1..], t, m);
    }
  }

  lemma {:induction false} BelowAll(s: seq<int>, m: int)
    requires |Below(s, m)| >= |s|
    ensures Below(s, m) == s
  {
    if s != [] { BelowAll(s[1..], m); }
  }

  lemma {:induction false} BelowSome(s: seq<int>, m: int, j: nat)
    requires j < |s| && s[j] >= m
    ensures |Below(s, m)| < |s|
  {
    if j > 0 { BelowSome(s[1..], m, j - 1); }
  }

  lemma {:induction false} BelowMembers(s: seq<int>, m: int, c: int)
    ensures c in Below(s, m) <==> c in s && c < m
  {
    if s != [] { BelowMembers(s[1..], m, c); }
  }

  lemma BelowOne(c: int, m: int)
    ensures Below([c], m) == if c < m then [c] else []
  {
  }

  // Moving past one character.
  lemma KeptStep(s: seq<int>, m: int, j: nat)
    requires j < |s|
    ensures s[j] != m ==> Kept(s, m, j + 1) == Kept(s, m, j)
    ensures s[j] == m ==> Kept(s, m, j + 1) == Insert(Kept(s, m, j), |Below(s[..j], m + 1)|, m)
    ensures Below(s[..j + 1], m + 1) == Below(s[..j], m + 1) + if s[j] <= m then [s[j]] else []
  {
    hide Below;
    assert s[..j + 1] == s[..j] + [s[j]];
    assert s[j..] == [s[j]] + s[j + 1..];
    BelowAppend(s[..j], [s[j]], m + 1);
    BelowAppend([s[j]], s[j + 1..], m);
    BelowOne(s[j], m + 1);
    BelowOne(s[j], m);
    var x, y := Below(s[..j], m + 1), Below(s[j + 1..], m);
    if s[j] < m {
      assert x + [s[j]] + y == x + ([s[j]] + y);
    } else if s[j] == m {
      assert (x + y)[..|x|] == x && (x + y)[|x|..] == y;
    }
  }

  lemma KeptEnds(s: seq<int>, m: int)
    ensures Kept(s, m, 0) == Below(s, m) && Kept(s, m, |s|) == Below(s, m + 1)
  {
    assert s[..0] == [] && s[0..] == s && s[..|s|] == s && s[|s|..] == [];
  }

  // ---------------------------------------------------------------- the place number of an insertion

  // The largest code point below m that is inserted, or 128.
  function Previous(s: seq<int>, m: int): (n: int)
    ensures n >= 128
    ensures n == 128 || (n in s && n < m)
    ensures forall c :: c in s && c < m ==> c <= n
  {
    if s == [] then 128
    else
      var n := Previous(s[1..], m);
      assert s == [s[0]] + s[1..];
      if n < s[0] < m then s[0] else n
  }

  // Code point the decoder stands at before the encoder handles position j of its pass for m.
  function At(s: seq<int>, m: int, j: nat): int
    requires j <= |s|
  {
    if m in s[..j] then m else Previous(s, m)
  }

  /** The number of the place where character j is inserted.  Places are numbered, over all code points from the one
      inserted before, by code point and then by position in the string built so far. */
  function Place(s: seq<int>, j: nat): int
    requires j < |s|
  {
    (s[j] - At(s, s[j], j)) * (|Kept(s, s[j], j)| + 1) + |Below(s[..j], s[j] + 1)|
  }

  ghost predicate FitsFrom(s: seq<int>, a: int, limit: nat)
  {
    forall j :: 0 <= j < |s| && a <= s[j] ==> Place(s, j) <= limit
  }

  // All insertions fit the 31-bit integers of the codec.
  ghost predicate Fits(s: seq<int>)
  {
    FitsFrom(s, 128, MAX_INT)
  }

  // The same, for the positions from j on that hold m.
  ghost predicate FitsPass(s: seq<int>, m: int, j: nat, limit: nat)
  {
    forall x :: j <= x < |s| && s[x] == m ==> Place(s, x) <= limit
  }

  // ---------------------------------------------------------------- encoder and decoder side by side

  // How many characters before j are smaller than m.
  ghost function SmallerIn(s: seq<int>, m: int, j: nat): nat
    requires j <= |s|
  {
    |Below(s[..j], m)|
  }

  // The encoder stands before position j of its pass for m, which began with handled == w - 1.
  ghost predicate Related(s: seq<int>, m: int, j: nat, basic: nat, w: nat, st: Encoder, dec: Decoder)
  {
    && j <= |s| && 128 <= m
    && dec.out == Kept(s, m, j)
    && st.handled == |dec.out|
    && dec.n == At(s, m, j)
    && dec.n <= m
    && 0 <= dec.i <= |dec.out|
    && st.delta == (m - dec.n) * (|dec.out| + 1) + |Below(s[..j], m + 1)| - dec.i
    && 0 <= st.delta <= MAX_INT
    && dec.bias == st.bias <= 215
    && (dec.i == 0 <==> st.handled == basic)
    && basic < w && basic <= st.handled
    && w == |Below(s, m)| + 1
    && (m !in s[..j] ==> st.handled + 1 == w)
    && (m in s[..j] ==> w <= st.handled && st.delta <= SmallerIn(s, m, j))
  }

  lemma SmallerStep(s: seq<int>, m: int, j: nat)
    requires j < |s|
    ensures SmallerIn(s, m, j + 1) == SmallerIn(s, m, j) + if s[j] < m then 1 else 0
    ensures SmallerIn(s, m, j) <= |Below(s, m)|
    ensures |Below(s[..j], m + 1)| <= |Kept(s, m, j)|
    ensures m in s[..j + 1] <==> m in s[..j] || s[j] == m
  {
    hide Below;
    assert s[..j + 1] == s[..j] + [s[j]];
    assert s == s[..j] + s[j..];
    BelowAppend(s[..j], [s[j]], m);
    BelowOne(s[j], m);
    BelowAppend(s[..j], s[j..], m);
  }

  // Passing a character that is not inserted.
  lemma SkipStep(s: seq<int>, m: int, j: nat, basic: nat, w: nat, st: Encoder, dec: Decoder)
    requires Related(s, m, j, basic, w, st, dec) && j < |s| && s[j] != m
    requires s[j] < m ==> st.delta + 1 <= MAX_INT
    ensures Related(s, m, j + 1, basic, w, if s[j] < m then st.(delta := st.delta + 1) else st, dec)
  {
    hide Below, Kept, SmallerIn;
    KeptStep(s, m, j);
    SmallerStep(s, m, j);
  }

  // The decoder's state after the insertion of character j.
  lemma InsertStep(s: seq<int>, m: int, j: nat, basic: nat, w: nat, st: Encoder, dec: Decoder, sum: int)
    requires Related(s, m, j, basic, w, st, dec) && j < |s| && s[j] == m
    requires sum == dec.i + st.delta
    ensures sum == Place(s, j)
    ensures sum / (|dec.out| + 1) == m - dec.n
    ensures Related(s, m, j + 1, basic, w, Emit(basic, w, st), Inserted(dec, sum))
  {
    hide Below, Kept, SmallerIn, Adapt, VarInt;
    KeptStep(s, m, j);
    SmallerStep(s, m, j);
    var k := |Below(s[..j], m + 1)|;
    var points := |dec.out| + 1;
    ModUnique(sum, points, m - dec.n, k);
    AdaptBound(st.delta, w, st.handled == basic);
    if m in s[..j] { AdaptIgnoresPoints(st.delta, w, points); }
  }

  lemma InsertedPlace(s: seq<int>, m: int, j: nat, basic: nat, w: nat, st: Encoder, dec: Decoder)
    requires Related(s, m, j, basic, w, st, dec) && j < |s| && s[j] == m
    ensures Inserted(dec, dec.i + st.delta).i == |Below(s[..j], m + 1)| + 1
  {
    hide Below, Kept, SmallerIn, Adapt, Insert;
    KeptStep(s, m, j);
    SmallerStep(s, m, j);
    ModUnique(dec.i + st.delta, |dec.out| + 1, m - dec.n, |Below(s[..j], m + 1)|);
  }

  // ---------------------------------------------------------------- one pass

  lemma {:induction false} PassExtends(s: seq<int>, m: int, j: nat, basic: nat, w: nat, st: Encoder)
    requires j <= |s| && w > 0 && st.delta >= 0
    ensures Pass(s, j, m, basic, w, st).Ok? ==> st.out <= Pass(s, j, m, basic, w, st).value.out
    decreases |s| - j
  {
    if j < |s| {
      if s[j] < m {
        if st.delta + 1 <= MAX_INT { PassExtends(s, m, j + 1, basic, w, st.(delta := st.delta + 1)); }
      } else if s[j] == m {
        PassExtends(s, m, j + 1, basic, w, Emit(basic, w, st));
      } else {
        PassExtends(s, m, j + 1, basic, w, st);
      }
    }
  }

  lemma FitsPassStep(s: seq<int>, m: int, j: nat, limit: nat)
    ensures j >= |s| ==> FitsPass(s, m, j, limit)
    ensures j < |s| ==>
      (FitsPass(s, m, j, limit) <==> (s[j] == m ==> Place(s, j) <= limit) && FitsPass(s, m, j + 1, limit))
  {
    hide Place;
  }

  lemma MoreOutput(out: seq<int>, digits: seq<int>, out': seq<int>, rest: seq<int>)
    requires out + digits <= out'
    ensures out'[|out|..] + rest == digits + (out'[|out + digits|..] + rest)
  {
    assert out'[|out|..] == digits + out'[|out + digits|..];
  }

  // What the decoder does with the digits of one insertion.
  lemma InsertionDecodes(s: seq<int>, m: int, j: nat, basic: nat, w: nat, st: Encoder, dec: Decoder,
                         input: seq<int>, u: nat, rest: seq<int>, limit: nat)
    requires Related(s, m, j, basic, w, st, dec) && j < |s| && s[j] == m < 0x11_0000 && limit >= MAX_INT
    requires u <= |input| && input[u..] == VarInt(st.delta, 36, st.bias) + rest
    ensures |rest| <= |input| - u && input[|input| - |rest|..] == rest
    ensures var sum := dec.i + st.delta;
      && sum == Place(s, j)
      && Related(s, m, j + 1, basic, w, Emit(basic, w, st), Inserted(dec, sum))
      && DecodeFrom(input, u, dec, limit) ==
           if sum <= limit then DecodeFrom(input, |input| - |rest|, Inserted(dec, sum), limit) else Throw(Overflow)
  {
    hide VarInt, Adapt, ReadInt, Place, Kept, At, SmallerIn;
    var sum := dec.i + st.delta;
    InsertStep(s, m, j, basic, w, st, dec, sum);
    NoDashInVarInt(st.delta, 36, st.bias);
    FirstWeight(dec.bias);
    ReadVarInt(st.delta, input, u, rest, dec.i, 1, 36, dec.bias, limit);
    hide Related, Emit, Inserted, Below;
    assert |input| - u == |VarInt(st.delta, 36, st.bias)| + |rest|;
    assert input[|input| - |rest|..] == input[u..][|VarInt(st.delta, 36, st.bias)|..];
  }

  // The part of a pass that begins with an insertion, and rest1 that is left of the input behind its digits.
  lemma PassInserts(s: seq<int>, m: int, j: nat, basic: nat, w: nat, st: Encoder, dec: Decoder,
                    st': Encoder, input: seq<int>, u: nat, rest: seq<int>, limit: nat)
    returns (rest1: seq<int>)
    requires Related(s, m, j, basic, w, st, dec) && j < |s| && s[j] == m < 0x11_0000 && limit >= MAX_INT
    requires Pass(s, j, m, basic, w, st) == Ok(st')
    requires st.out <= st'.out && u <= |input| && input[u..] == st'.out[|st.out|..] + rest
    ensures var st1, sum := Emit(basic, w, st), Place(s, j);
      && Pass(s, j + 1, m, basic, w, st1) == Ok(st') && st1.out <= st'.out
      && |rest1| <= |input| && input[|input| - |rest1|..] == rest1 == st'.out[|st1.out|..] + rest
      && Related(s, m, j + 1, basic, w, st1, Inserted(dec, sum))
      && DecodeFrom(input, u, dec, limit) ==
           if sum <= limit then DecodeFrom(input, |input| - |rest1|, Inserted(dec, sum), limit) else Throw(Overflow)
  {
    hide VarInt, Adapt, DecodeFrom, Place, Inserted, Kept, At, SmallerIn;
    var st1 := Emit(basic, w, st);
    PassExtends(s, m, j + 1, basic, w, st1);
    MoreOutput(st.out, VarInt(st.delta, 36, st.bias), st'.out, rest);
    rest1 := st'.out[|st1.out|..] + rest;
    InsertionDecodes(s, m, j, basic, w, st, dec, input, u, rest1, limit);
  }

  // What the decoder does with the digits that the rest of a pass writes.
  lemma {:induction false} PassDecodes(s: seq<int>, m: int, j: nat, basic: nat, w: nat, st: Encoder, dec: Decoder,
                                       st': Encoder, input: seq<int>, u: nat, rest: seq<int>, limit: nat)
    returns (dec': Decoder)
    requires Related(s, m, j, basic, w, st, dec) && m < 0x11_0000 && limit >= MAX_INT
    requires Pass(s, j, m, basic, w, st) == Ok(st')
    requires st.out <= st'.out && u <= |input| && input[u..] == st'.out[|st.out|..] + rest
    ensures FitsPass(s, m, j, limit) ==> Related(s, m, |s|, basic, w, st', dec')
    ensures FitsPass(s, m, j, limit) ==>
      DecodeFrom(input, u, dec, limit) == DecodeFrom(input, |input| - |rest|, dec', limit)
    ensures !FitsPass(s, m, j, limit) ==> DecodeFrom(input, u, dec, limit) == Throw(Overflow)
    decreases |s| - j
  {
    hide VarInt, Adapt, DecodeFrom, Place, FitsPass, Inserted, Kept, At, SmallerIn;
    FitsPassStep(s, m, j, limit);
    dec' := dec;
    if j == |s| {
      assert input[u..] == rest;
    } else if s[j] != m {
      var st1 := if s[j] < m then st.(delta := st.delta + 1) else st;
      SkipStep(s, m, j, basic, w, st, dec);
      hide Related;
      dec' := PassDecodes(s, m, j + 1, basic, w, st1, dec, st', input, u, rest, limit);
    } else {
      var rest1 := PassInserts(s, m, j, basic, w, st, dec, st', input, u, rest, limit);
      var st1, sum := Emit(basic, w, st), Place(s, j);
      hide Related, Pass, Emit;
      if sum <= limit {
        dec' := PassDecodes(s, m, j + 1, basic, w, st1, Inserted(dec, sum), st', input, |input| - |rest1|, rest, limit);
      }
    }
  }

  lemma FirstWeight(bias: int)
    ensures Weight(1, 36, bias)
  {
  }

  // Between two insertions of a pass the count only grows, so it fits when the next place does.
  lemma {:induction false} NextPlace(s: seq<int>, m: int, j: nat, x: nat)
    requires j <= x < |s| && s[x] == m && forall y :: j <= y < x ==> s[y] != m
    ensures Place(s, x)
      == (m - At(s, m, j)) * (|Kept(s, m, j)| + 1) + |Below(s[..x], m + 1)|
    ensures |Below(s[..j], m + 1)| + (if s[j] < m then 1 else 0) <= |Below(s[..x], m + 1)|
    decreases x - j
  {
    hide Below, Kept;
    if j < x {
      KeptStep(s, m, j);
      SmallerStep(s, m, j);
      NextPlace(s, m, j + 1, x);
    }
  }

  lemma {:induction false} FirstFrom(s: seq<int>, m: int, j: nat) returns (x: nat)
    requires j <= |s| && m in s[j..]
    ensures j <= x < |s| && s[x] == m && forall y :: j <= y < x ==> s[y] != m
    decreases |s| - j
  {
    if s[j] == m {
      x := j;
    } else {
      assert s[j..] == [s[j]] + s[j + 1..];
      x := FirstFrom(s, m, j + 1);
    }
  }

  // The first insertion of a pass counts from place i on; that count must fit.
  ghost predicate CountFits(s: seq<int>, m: int, j: nat, i: int)
  {
    forall x :: j <= x < |s| && s[x] == m && m !in s[..x] ==> Place(s, x) - i <= MAX_INT
  }

  // The last position of m before j.
  function LastBefore(s: seq<int>, m: int, j: nat): (x: nat)
    requires j <= |s| && m in s[..j]
    ensures x < j && s[x] == m && forall y :: x < y < j ==> s[y] != m
  {
    assert s[..j] == s[..j - 1] + [s[j - 1]];
    if s[j - 1] == m then j - 1 else LastBefore(s, m, j - 1)
  }

  /** The place behind the last insertion before the pass for m, counted in the string built by then: the encoder counts
      from there. */
  function Behind(s: seq<int>, m: int): nat
  {
    var p := Previous(s, m);
    if p < m && p in s[..|s|] then |Below(s[..LastBefore(s, p, |s|) + 1], p + 1)| else 0
  }

  // Before position j of the pass for m, the decoder stands behind the last insertion.
  ghost predicate Stands(s: seq<int>, m: int, j: nat, dec: Decoder)
    requires j <= |s|
  {
    dec.i == if m in s[..j] then |Below(s[..LastBefore(s, m, j) + 1], m + 1)| else Behind(s, m)
  }

  lemma StandsAfterSkip(s: seq<int>, m: int, j: nat, dec: Decoder)
    requires j < |s| && s[j] != m && Stands(s, m, j, dec)
    ensures Stands(s, m, j + 1, dec)
  {
    hide Below, Behind;
    assert s[..j + 1] == s[..j] + [s[j]];
  }

  lemma StandsAfterInsert(s: seq<int>, m: int, j: nat, dec: Decoder)
    requires j < |s| && s[j] == m && dec.i == |Below(s[..j], m + 1)| + 1
    ensures Stands(s, m, j + 1, dec)
  {
    hide Below, Behind;
    KeptStep(s, m, j);
    assert s[..j + 1] == s[..j] + [s[j]];
  }

  // A pass throws nothing if and only if the count of its first insertion fits.
  lemma {:induction false} PassSucceeds(s: seq<int>, m: int, j: nat, basic: nat, w: nat, st: Encoder, dec: Decoder)
    returns (dec': Decoder)
    requires Related(s, m, j, basic, w, st, dec) && m in s && |s| <= MAX_INT && Stands(s, m, j, dec)
    ensures Pass(s, j, m, basic, w, st).Ok? <==> m in s[..j] || CountFits(s, m, j, dec.i)
    ensures Pass(s, j, m, basic, w, st).Ok? ==>
      Related(s, m, |s|, basic, w, Pass(s, j, m, basic, w, st).value, dec') && Stands(s, m, |s|, dec')
    decreases |s| - j
  {
    hide VarInt, Adapt, Stands, Related, CountFits, Inserted, Emit;
    RelatedBounds(s, m, j, basic, w, st, dec);
    dec' := dec;
    if j == |s| {
      assert s[..j] == s;
    } else if s[j] != m {
      if st.delta + 1 > MAX_INT && s[j] < m {
        if m in s[..j] || CountFits(s, m, j, dec.i) {
          CountGrows(s, m, j, basic, w, st, dec);
        }
      } else {
        SkipStep(s, m, j, basic, w, st, dec);
        StillIn(s, m, j);
        StandsAfterSkip(s, m, j, dec);
        CountSkips(s, m, j, dec.i);
        dec' := PassSucceeds(s, m, j + 1, basic, w, if s[j] < m then st.(delta := st.delta + 1) else st, dec);
      }
    } else {
      StillIn(s, m, j);
      InsertCount(s, m, j, basic, w, st, dec);
      var dec1 := Inserted(dec, dec.i + st.delta);
      RelatedBounds(s, m, j + 1, basic, w, Emit(basic, w, st), dec1);
      dec' := PassSucceeds(s, m, j + 1, basic, w, Emit(basic, w, st), dec1);
    }
  }

  lemma RelatedBounds(s: seq<int>, m: int, j: nat, basic: nat, w: nat, st: Encoder, dec: Decoder)
    requires Related(s, m, j, basic, w, st, dec)
    ensures j <= |s| && w > 0 && 0 <= st.delta <= MAX_INT
  {
    hide Below, Kept, At, SmallerIn;
  }

  lemma StillIn(s: seq<int>, m: int, j: nat)
    requires j < |s|
    ensures m in s[..j + 1] <==> m in s[..j] || s[j] == m
  {
    assert s[..j + 1] == s[..j] + [s[j]];
  }

  // The first insertion of a pass had a count that fits.
  lemma InsertCount(s: seq<int>, m: int, j: nat, basic: nat, w: nat, st: Encoder, dec: Decoder)
    requires Related(s, m, j, basic, w, st, dec) && j < |s| && s[j] == m
    ensures m in s[..j] || CountFits(s, m, j, dec.i)
    ensures Related(s, m, j + 1, basic, w, Emit(basic, w, st), Inserted(dec, dec.i + st.delta))
    ensures Stands(s, m, j + 1, Inserted(dec, dec.i + st.delta))
  {
    hide Related, Stands, Place, CountFits, Inserted, Emit, Below;
    var sum := dec.i + st.delta;
    InsertStep(s, m, j, basic, w, st, dec, sum);
    InsertedPlace(s, m, j, basic, w, st, dec);
    StandsAfterInsert(s, m, j, Inserted(dec, sum));
    RelatedBounds(s, m, j, basic, w, st, dec);
    if m !in s[..j] { CountHere(s, m, j, dec.i); }
  }

  lemma CountSkips(s: seq<int>, m: int, j: nat, i: int)
    requires j < |s| && s[j] != m
    ensures CountFits(s, m, j, i) <==> CountFits(s, m, j + 1, i)
  {
    hide Place;
  }

  lemma CountHere(s: seq<int>, m: int, j: nat, i: int)
    requires j < |s| && s[j] == m && m !in s[..j]
    ensures CountFits(s, m, j, i) <==> Place(s, j) - i <= MAX_INT
  {
    hide Place;
    forall x | j < x < |s| ensures m in s[..x] { assert s[..x][j] == m; }
  }

  lemma CountGrows(s: seq<int>, m: int, j: nat, basic: nat, w: nat, st: Encoder, dec: Decoder)
    requires Related(s, m, j, basic, w, st, dec) && m in s && |s| <= MAX_INT
    requires m !in s[..j] ==> CountFits(s, m, j, dec.i)
    requires j < |s| && s[j] < m
    ensures st.delta + 1 <= MAX_INT
  {
    hide Kept, Below, Place;
    assert s == s[..j] + s[j..];
    if m in s[..j] {
      SmallerStep(s, m, j);
      BelowLength(s[..j + 1], m);
    } else {
      var x := FirstFrom(s, m, j);
      NextPlace(s, m, j, x);
      forall y | 0 <= y < x ensures s[y] != m {
        if y < j { assert s[y] == s[..j][y]; }
      }
      assert m !in s[..x];
      assert Place(s, x) - dec.i <= MAX_INT;
    }
  }

  lemma BelowLength(s: seq<int>, m: int)
    ensures |Below(s, m)| <= |s|
  {
  }

  // ---------------------------------------------------------------- all passes

  // Encoder and decoder between two passes: everything below a has been inserted.
  ghost predicate Between(s: seq<int>, a: int, basic: nat, st: Encoder, dec: Decoder)
  {
    && 128 <= a <= 0x11_0000
    && dec.out == Below(s, a)
    && st.handled == |dec.out|
    && dec.n == Previous(s, a)
    && 0 <= dec.i <= |dec.out|
    && dec.n <= a
    && st.delta == (a - dec.n) * (|dec.out| + 1) - dec.i
    && 0 <= st.delta
    && dec.bias == st.bias <= 215
    && (dec.i == 0 <==> st.handled == basic)
    && basic <= st.handled
  }

  ghost predicate AreCodePoints(s: seq<int>)
  {
    forall i :: 0 <= i < |s| ==> IsCodePoint(s[i])
  }

  // Whether anything is left to insert, and what comes next.
  lemma NextCodePoint(s: seq<int>, a: int)
    requires AreCodePoints(s) && 0 <= a <= 0x11_0000
    ensures |Below(s, a)| >= |s| ==> Below(s, a) == s && forall i :: 0 <= i < |s| ==> s[i] < a
    ensures |Below(s, a)| < |s| ==>
      var m := LeastFrom(s, a);
      a <= m < 0x11_0000 && m in s && Below(s, m) == Below(s, a) && Previous(s, m) == Previous(s, a)
  {
    hide Below;
    if |Below(s, a)| >= |s| {
      BelowAll(s, a);
      forall i | 0 <= i < |s| ensures s[i] < a { BelowMembers(s, a, s[i]); }
    } else {
      if forall i :: 0 <= i < |s| ==> s[i] < a {
        AllBelow(s, a);
        assert false;
      }
      var m := LeastFrom(s, a);
      BelowSame(s, a, m);
      SamePrevious(s, a, m);
    }
  }

  lemma {:induction false} AllBelow(s: seq<int>, a: int)
    requires forall i :: 0 <= i < |s| ==> s[i] < a
    ensures Below(s, a) == s
  {
    if s != [] { AllBelow(s[1..], a); }
  }

  lemma SamePrevious(s: seq<int>, a: int, m: int)
    requires a <= m && forall i :: 0 <= i < |s| && a <= s[i] ==> m <= s[i]
    ensures Previous(s, m) == Previous(s, a)
  {
    hide Previous;
    var p, q := Previous(s, m), Previous(s, a);
    assert p != 128 ==> p < a;
    assert q != 128 ==> q < m;
  }

  // The start of a pass.
  lemma BeginPass(s: seq<int>, a: int, basic: nat, st: Encoder, dec: Decoder)
    requires AreCodePoints(s) && Between(s, a, basic, st, dec) && st.handled < |s|
    requires st.delta + (LeastFrom(s, a) - a) * (st.handled + 1) <= MAX_INT
    ensures var m, w := LeastFrom(s, a), st.handled + 1;
      && (m - a) * w >= 0
      && Related(s, m, 0, basic, w, st.(delta := st.delta + (m - a) * w), dec)
  {
    hide Below, Previous, Kept, LeastFrom, AreCodePoints, SmallerIn;
    NextCodePoint(s, a);
    var m, w := LeastFrom(s, a), st.handled + 1;
    assert m !in s[..0];
    KeptEnds(s, m);
    MulNonNegative(m - a, w);
    Advance(m, a, dec.n, w, dec.i, st.delta);
    assert s[..0] == [];
    assert |Below(s[..0], m + 1)| == 0 by { BelowLength([], m + 1); }
  }

  lemma Advance(m: int, a: int, n: int, w: nat, i: int, delta: int)
    requires delta == (a - n) * w - i
    ensures delta + (m - a) * w == (m - n) * w - i
  {
    Distrib(m - a, a - n, w);
  }

  // The end of a pass.
  lemma EndPass(s: seq<int>, m: int, basic: nat, w: nat, st: Encoder, dec: Decoder)
    requires Related(s, m, |s|, basic, w, st, dec) && m in s && m < 0x11_0000
    ensures Between(s, m + 1, basic, st.(delta := st.delta + 1), dec)
  {
    hide Below, Previous;
    KeptEnds(s, m);
    assert s[..|s|] == s;
    assert Previous(s, m + 1) == m;
  }

  // A pass for the least code point left, and all passes after it.
  lemma FitsSplit(s: seq<int>, a: int, m: int, limit: nat)
    requires a <= m && forall i :: 0 <= i < |s| && a <= s[i] ==> m <= s[i]
    ensures FitsFrom(s, a, limit) <==> FitsPass(s, m, 0, limit) && FitsFrom(s, m + 1, limit)
  {
    hide Place;
  }

  lemma {:induction false} EncodeExtends(s: seq<int>, a: nat, basic: nat, st: Encoder)
    requires a <= MAX_INT + 1 && st.delta >= 0
    ensures EncodeFrom(s, a, basic, st).Ok? ==> st.out <= EncodeFrom(s, a, basic, st).value
    decreases MAX_INT + 1 - a
  {
    hide Pass, LeastFrom;
    if st.handled < |s| && a <= MAX_INT {
      var m, w := LeastFrom(s, a), st.handled + 1;
      if m - a <= (MAX_INT - st.delta) / w {
        MulNonNegative(m - a, w);
        var st0 := st.(delta := st.delta + (m - a) * w);
        PassExtends(s, m, 0, basic, w, st0);
        PassKeepsDelta(s, 0, m, basic, w, st0);
        match Pass(s, 0, m, basic, w, st0)
        case Throw(_) =>
        case Ok(st') => EncodeExtends(s, m + 1, basic, st'.(delta := st'.delta + 1));
      }
    }
  }

  lemma {:induction false} EncodeDecodes(s: seq<int>, a: int, basic: nat, st: Encoder, dec: Decoder,
                                         o: seq<int>, input: seq<int>, u: nat, limit: nat)
    requires AreCodePoints(s) && Between(s, a, basic, st, dec) && limit >= MAX_INT
    requires EncodeFrom(s, a, basic, st) == Ok(o) && st.out <= o
    requires u <= |input| && input[u..] == o[|st.out|..]
    ensures DecodeFrom(input, u, dec, limit) == if FitsFrom(s, a, limit) then Ok(s) else Throw(Overflow)
    decreases 0x11_0000 - a
  {
    hide Pass, LeastFrom, Related, Below, Previous, Place, Inserted, ReadInt;
    NextCodePoint(s, a);
    if st.handled >= |s| {
      assert input[u..] == [];
    } else {
      var m, w := LeastFrom(s, a), st.handled + 1;
      assert 128 <= a <= 0x11_0000 && st.delta >= 0;
      hide Between, AreCodePoints, FitsFrom, FitsPass, DecodeFrom;
      MulNonNegative(m - a, w);
      Guard(m - a, st.delta, w, MAX_INT);
      BeginPass(s, a, basic, st, dec);
      var st0 := st.(delta := st.delta + (m - a) * w);
      var st' := Pass(s, 0, m, basic, w, st0).value;
      PassExtends(s, m, 0, basic, w, st0);
      PassKeepsDelta(s, 0, m, basic, w, st0);
      var st1 := st'.(delta := st'.delta + 1);
      EncodeExtends(s, m + 1, basic, st1);
      assert o[|st.out|..] == st'.out[|st.out|..] + o[|st'.out|..];
      var dec' := PassDecodes(s, m, 0, basic, w, st0, dec, st', input, u, o[|st'.out|..], limit);
      FitsSplit(s, a, m, limit);
      if FitsPass(s, m, 0, limit) {
        EndPass(s, m, basic, w, st', dec');
        var u' := |input| - |o[|st'.out|..]|;
        assert input[u'..] == o[|st1.out|..];
        EncodeDecodes(s, m + 1, basic, st1, dec', o, input, u', limit);
      }
    }
  }

  lemma RoundFits(s: seq<int>, a: int, basic: nat, st: Encoder, dec: Decoder, m: int, w: nat)
    requires AreCodePoints(s) && Between(s, a, basic, st, dec) && st.handled < |s|
    requires m == LeastFrom(s, a) && w == st.handled + 1 && CountFits(s, m, 0, dec.i)
    ensures st.delta + (m - a) * w <= MAX_INT
  {
    hide LeastFrom, Below, Previous, Place, AreCodePoints, Between, CountFits;
    BetweenMeans(s, a, basic, st, dec);
    NextCodePoint(s, a);
    var x := FirstPlace(s, m);
    CountFitsAt(s, m, x, dec.i);
    CountBefore(m, a, dec.n, w, |Below(s[..x], m + 1)|, dec.i, st.delta, Place(s, x));
  }

  lemma BetweenMeans(s: seq<int>, a: int, basic: nat, st: Encoder, dec: Decoder)
    requires Between(s, a, basic, st, dec)
    ensures 128 <= a <= 0x11_0000 && st.handled == |Below(s, a)| && dec.n == Previous(s, a)
    ensures st.delta == (a - dec.n) * (st.handled + 1) - dec.i
  {
    hide Below, Previous;
  }

  lemma CountFitsAt(s: seq<int>, m: int, x: nat, i: int)
    requires CountFits(s, m, 0, i) && x < |s| && s[x] == m && m !in s[..x]
    ensures Place(s, x) - i <= MAX_INT
  {
    hide Place;
  }

  // The place of the first insertion of m.
  lemma FirstPlace(s: seq<int>, m: int) returns (x: nat)
    requires m in s
    ensures x < |s| && s[x] == m && m !in s[..x]
    ensures Place(s, x) == (m - Previous(s, m)) * (|Below(s, m)| + 1) + |Below(s[..x], m + 1)|
  {
    hide Below, Previous, Place, Kept;
    assert s[0..] == s && m !in s[..0];
    x := FirstFrom(s, m, 0);
    NextPlace(s, m, 0, x);
    KeptEnds(s, m);
  }

  lemma CountBefore(m: int, a: int, n: int, w: nat, k: nat, i: int, delta: int, place: int)
    requires delta == (a - n) * w - i && place == (m - n) * w + k && place - i <= MAX_INT
    ensures delta + (m - a) * w <= MAX_INT
  {
    Distrib(m - a, a - n, w);
  }

  // The first insertions of all passes from code point a on have counts that fit.
  ghost predicate CountsFitFrom(s: seq<int>, a: int)
  {
    forall x :: 0 <= x < |s| && a <= s[x] && s[x] !in s[..x] ==> Place(s, x) - Behind(s, s[x]) <= MAX_INT
  }

  /** The counts that the encoder starts a pass with fit 31 bits. */
  ghost predicate CountsFit(s: seq<int>)
  {
    CountsFitFrom(s, 128)
  }

  lemma CountsSplit(s: seq<int>, a: int, m: int)
    requires a <= m && forall i :: 0 <= i < |s| && a <= s[i] ==> m <= s[i]
    ensures CountsFitFrom(s, a) <==> CountFits(s, m, 0, Behind(s, m)) && CountsFitFrom(s, m + 1)
  {
    hide Place, Behind;
  }

  lemma StandsAtStart(s: seq<int>, a: int, m: int, dec: Decoder)
    requires a <= m && m in s && (forall i :: 0 <= i < |s| && a <= s[i] ==> m <= s[i])
    requires Previous(s, m) == Previous(s, a) && dec.i == Behind(s, a)
    ensures Stands(s, m, 0, dec) && dec.i == Behind(s, m)
  {
    hide Below, Previous, LastBefore;
    assert s[..0] == [] && s[..|s|] == s;
    var p := Previous(s, m);
    assert p in s ==> (p < m <==> p < a);
  }

  lemma StandsAtEnd(s: seq<int>, m: int, dec: Decoder)
    requires m in s && m >= 128 && Stands(s, m, |s|, dec)
    ensures dec.i == Behind(s, m + 1)
  {
    hide Below;
    assert s[..|s|] == s;
    assert Previous(s, m + 1) == m;
  }

  // One round: it throws nothing if and only if the count of its first insertion fits.
  lemma RoundSucceeds(s: seq<int>, a: int, basic: nat, st: Encoder, dec: Decoder, m: int, w: nat, st0: Encoder)
    returns (dec': Decoder)
    requires AreCodePoints(s) && Between(s, a, basic, st, dec) && dec.i == Behind(s, a)
    requires st.handled < |s| <= MAX_INT && m == LeastFrom(s, a) && w == st.handled + 1
    requires st0 == st.(delta := st.delta + (m - a) * w) && st0.delta >= 0
    ensures a <= m < 0x11_0000 && (CountsFitFrom(s, a) <==> CountFits(s, m, 0, dec.i) && CountsFitFrom(s, m + 1))
    ensures m - a <= (MAX_INT - st.delta) / w && Pass(s, 0, m, basic, w, st0).Ok? <==> CountFits(s, m, 0, dec.i)
    ensures CountFits(s, m, 0, dec.i) ==> var st' := Pass(s, 0, m, basic, w, st0).value;
      0 <= st'.delta && Between(s, m + 1, basic, st'.(delta := st'.delta + 1), dec') && dec'.i == Behind(s, m + 1)
  {
    hide Pass, LeastFrom, Below, Previous, Place, At, Kept, Behind, Stands, Related, CountFits, CountsFitFrom, Between,
      AreCodePoints;
    NextIsLeast(s, a, basic, st, dec);
    CountsSplit(s, a, m);
    StandsAtStart(s, a, m, dec);
    Guard(m - a, st.delta, w, MAX_INT);
    dec' := dec;
    if st0.delta > MAX_INT {
      if CountFits(s, m, 0, dec.i) { RoundFits(s, a, basic, st, dec, m, w); }
    } else {
      BeginPass(s, a, basic, st, dec);
      dec' := PassSucceeds(s, m, 0, basic, w, st0, dec);
      NothingBefore(s, m);
      if Pass(s, 0, m, basic, w, st0).Ok? {
        PassKeepsDelta(s, 0, m, basic, w, st0);
        EndPass(s, m, basic, w, Pass(s, 0, m, basic, w, st0).value, dec');
        StandsAtEnd(s, m, dec');
      }
    }
  }

  lemma NextIsLeast(s: seq<int>, a: int, basic: nat, st: Encoder, dec: Decoder)
    requires AreCodePoints(s) && Between(s, a, basic, st, dec) && st.handled < |s|
    ensures var m := LeastFrom(s, a);
      && 128 <= a <= m < 0x11_0000 && m in s && Previous(s, m) == Previous(s, a)
      && forall i :: 0 <= i < |s| && a <= s[i] ==> m <= s[i]
  {
    hide LeastFrom, Below, Previous;
    NextCodePoint(s, a);
  }

  // All passes from code point a on: they throw nothing if and only if their counts fit.
  lemma {:induction false} EncodeSucceeds(s: seq<int>, a: int, basic: nat, st: Encoder, dec: Decoder)
    requires AreCodePoints(s) && Between(s, a, basic, st, dec) && dec.i == Behind(s, a)
    requires 0 <= a <= 0x11_0000 && st.delta >= 0 && |s| <= MAX_INT
    ensures EncodeFrom(s, a, basic, st).Ok? <==> CountsFitFrom(s, a)
    decreases 0x11_0000 - a
  {
    hide *;
    EncodeRound(s, a, basic, st);
    if st.handled < |s| {
      var m, w := LeastFrom(s, a), st.handled + 1;
      NextIsLeast(s, a, basic, st, dec);
      MulNonNegative(m - a, w);
      var st0 := st.(delta := st.delta + (m - a) * w);
      var dec' := RoundSucceeds(s, a, basic, st, dec, m, w, st0);
      if CountFits(s, m, 0, dec.i) {
        var st' := Pass(s, 0, m, basic, w, st0).value;
        EncodeSucceeds(s, m + 1, basic, st'.(delta := st'.delta + 1), dec');
      }
    } else {
      AllHandled(s, a, basic, st, dec);
    }
  }

  lemma EncodeRound(s: seq<int>, a: nat, basic: nat, st: Encoder)
    requires a <= 0x11_0000 && st.delta >= 0
    ensures st.handled >= |s| ==> EncodeFrom(s, a, basic, st).Ok?
    ensures st.handled < |s| ==> (var m, w := LeastFrom(s, a), st.handled + 1;
      MulNonNegative(m - a, w);
      var st0 := st.(delta := st.delta + (m - a) * w);
      PassKeepsDelta(s, 0, m, basic, w, st0);
      EncodeFrom(s, a, basic, st).Ok? <==>
        m - a <= (MAX_INT - st.delta) / w && Pass(s, 0, m, basic, w, st0).Ok?
        && var st' := Pass(s, 0, m, basic, w, st0).value; EncodeFrom(s, m + 1, basic, st'.(delta := st'.delta + 1)).Ok?)
  {
    hide Pass, LeastFrom;
  }

  lemma AllHandled(s: seq<int>, a: int, basic: nat, st: Encoder, dec: Decoder)
    requires AreCodePoints(s) && Between(s, a, basic, st, dec) && st.handled >= |s|
    ensures CountsFitFrom(s, a)
  {
    hide Below, Previous;
    NextCodePoint(s, a);
  }

  lemma NothingBefore(s: seq<int>, m: int)
    ensures m !in s[..0]
  {
  }

  // ---------------------------------------------------------------- the delimiter

  lemma {:induction false} PassWritesNoDash(s: seq<int>, m: int, j: nat, basic: nat, w: nat, st: Encoder)
    requires j <= |s| && w > 0 && st.delta >= 0 && Pass(s, j, m, basic, w, st).Ok?
    ensures st.out <= Pass(s, j, m, basic, w, st).value.out
    ensures 0x2d !in Pass(s, j, m, basic, w, st).value.out[|st.out|..]
    decreases |s| - j
  {
    hide VarInt, Adapt;
    PassExtends(s, m, j, basic, w, st);
    if j < |s| {
      if s[j] == m {
        var st1 := Emit(basic, w, st);
        NoDashInVarInt(st.delta, 36, st.bias);
        PassExtends(s, m, j + 1, basic, w, st1);
        PassWritesNoDash(s, m, j + 1, basic, w, st1);
        var o := Pass(s, j, m, basic, w, st).value.out;
        assert o[|st.out|..] == VarInt(st.delta, 36, st.bias) + o[|st1.out|..];
      } else {
        PassWritesNoDash(s, m, j + 1, basic, w, if s[j] < m then st.(delta := st.delta + 1) else st);
      }
    }
  }

  lemma {:induction false} EncodeWritesNoDash(s: seq<int>, a: nat, basic: nat, st: Encoder)
    requires a <= MAX_INT + 1 && st.delta >= 0 && EncodeFrom(s, a, basic, st).Ok?
    ensures st.out <= EncodeFrom(s, a, basic, st).value
    ensures 0x2d !in EncodeFrom(s, a, basic, st).value[|st.out|..]
    decreases MAX_INT + 1 - a
  {
    hide Pass, LeastFrom;
    EncodeExtends(s, a, basic, st);
    if st.handled < |s| && a <= MAX_INT {
      var m, w := LeastFrom(s, a), st.handled + 1;
      MulNonNegative(m - a, w);
      var st0 := st.(delta := st.delta + (m - a) * w);
      PassKeepsDelta(s, 0, m, basic, w, st0);
      PassWritesNoDash(s, m, 0, basic, w, st0);
      var st' := Pass(s, 0, m, basic, w, st0).value;
      var st1 := st'.(delta := st'.delta + 1);
      EncodeWritesNoDash(s, m + 1, basic, st1);
      var o := EncodeFrom(s, a, basic, st).value;
      assert o[|st.out|..] == st'.out[|st.out|..] + o[|st'.out|..];
    }
  }

  lemma {:induction false} LastDashOf(b: seq<int>, x: seq<int>)
    requires 0x2d !in x
    ensures LastDash(b + [0x2d] + x) == |b|
    ensures LastDash(x) == 0
  {
    var e := b + [0x2d] + x;
    if x == [] {
      assert e[|e| - 1] == 0x2d;
    } else {
      var x' := x[..|x| - 1];
      assert x[|x| - 1] in x;
      assert e[|e| - 1] == x[|x| - 1];
      assert e[..|e| - 1] == b + [0x2d] + x';
      LastDashOf(b, x');
    }
  }

  // ---------------------------------------------------------------- the theorems

  function Start(s: seq<int>): Encoder
  {
    var b := Below(s, 128);
    Encoder(0, |b|, 72, if b == [] then [] else b + [0x2d])
  }

  lemma StartBetween(s: seq<int>)
    requires AreCodePoints(s)
    ensures Between(s, 128, |Below(s, 128)|, Start(s), Decoder(Below(s, 128), 128, 0, 72))
  {
    assert Previous(s, 128) == 128;
  }

  lemma DecodeStarts(s: seq<int>, x: seq<int>, limit: nat)
    requires 0x2d !in x
    ensures DecodeWithin(Start(s).out + x, limit)
      == DecodeFrom(Start(s).out + x, |Start(s).out|, Decoder(Below(s, 128), 128, 0, 72), limit)
  {
    hide Below, DecodeFrom, LastDash;
    var b := Below(s, 128);
    LastDashOf(b, x);
    forall i | 0 <= i < |b| ensures b[i] < 128 { BelowMembers(s, 128, b[i]); }
    if b == [] {
      assert Start(s).out + x == x && x[..0] == b;
    } else {
      assert Start(s).out + x == b + [0x2d] + x;
      assert (b + [0x2d] + x)[..|b|] == b;
    }
  }

  // What a decoder with a limit makes of what the encoder wrote.
  lemma DecodeOfEncodeWithin(s: seq<int>, limit: nat)
    requires AreCodePoints(s) && EncodeCodePoints(s).Ok? && limit >= MAX_INT
    ensures DecodeWithin(EncodeCodePoints(s).value, limit) == if FitsFrom(s, 128, limit) then Ok(s) else Throw(Overflow)
  {
    hide EncodeFrom, DecodeFrom, Below, Place, LastDash, Previous;
    var o, st, basic := EncodeCodePoints(s).value, Start(s), |Below(s, 128)|;
    EncodeWritesNoDash(s, 128, basic, st);
    var x := o[|st.out|..];
    assert o == st.out + x;
    StartBetween(s);
    DecodeStarts(s, x, limit);
    EncodeDecodes(s, 128, basic, st, Decoder(Below(s, 128), 128, 0, 72), o, o, |st.out|, limit);
  }

  /** Decoding what the encoder wrote gives the input back exactly when every insertion place fits 31 bits; otherwise
      the decoder reports an overflow. */
  lemma DecodeOfEncode(s: seq<int>)
    requires AreCodePoints(s) && EncodeCodePoints(s).Ok?
    ensures DecodeCodePoints(EncodeCodePoints(s).value) == if Fits(s) then Ok(s) else Throw(Overflow)
  {
    hide EncodeCodePoints, DecodeWithin, FitsFrom;
    DecodeOfEncodeWithin(s, MAX_INT);
  }

  /** The encoder throws nothing if and only if the counts that it starts its passes with fit. */
  lemma EncodeThrows(s: seq<int>)
    requires AreCodePoints(s) && |s| <= MAX_INT
    ensures EncodeCodePoints(s) == Throw(Overflow) || EncodeCodePoints(s).Ok?
    ensures EncodeCodePoints(s).Ok? <==> CountsFit(s)
  {
    hide EncodeFrom, Below, Place, Previous;
    StartBetween(s);
    assert Behind(s, 128) == 0;
    EncodeSucceeds(s, 128, |Below(s, 128)|, Start(s), Decoder(Below(s, 128), 128, 0, 72));
    if !EncodeCodePoints(s).Ok? { OnlyOverflow(s, 128, |Below(s, 128)|, Start(s)); }
  }

  lemma {:induction false} OnlyOverflow(s: seq<int>, a: nat, basic: nat, st: Encoder)
    requires a <= MAX_INT + 1 && st.delta >= 0 && EncodeFrom(s, a, basic, st).Throw?
    ensures EncodeFrom(s, a, basic, st) == Throw(Overflow)
    decreases MAX_INT + 1 - a
  {
    hide Pass, LeastFrom;
    var m, w := LeastFrom(s, a), st.handled + 1;
    if m - a <= (MAX_INT - st.delta) / w {
      MulNonNegative(m - a, w);
      var st0 := st.(delta := st.delta + (m - a) * w);
      PassOverflow(s, m, 0, basic, w, st0);
      PassKeepsDelta(s, 0, m, basic, w, st0);
      match Pass(s, 0, m, basic, w, st0)
      case Throw(_) =>
      case Ok(st') => OnlyOverflow(s, m + 1, basic, st'.(delta := st'.delta + 1));
    }
  }

  lemma {:induction false} PassOverflow(s: seq<int>, m: int, j: nat, basic: nat, w: nat, st: Encoder)
    requires j <= |s| && w > 0 && st.delta >= 0
    ensures Pass(s, j, m, basic, w, st).Throw? ==> Pass(s, j, m, basic, w, st) == Throw(Overflow)
    decreases |s| - j
  {
    hide VarInt, Adapt;
    if j < |s| {
      if s[j] != m {
        if s[j] > m || st.delta + 1 <= MAX_INT {
          PassOverflow(s, m, j + 1, basic, w, if s[j] < m then st.(delta := st.delta + 1) else st);
        }
      } else {
        PassOverflow(s, m, j + 1, basic, w, Emit(basic, w, st));
      }
    }
  }

  // Counts are never larger than places.
  lemma FittingCounts(s: seq<int>)
    requires Fits(s)
    ensures CountsFit(s)
  {
    hide Place, Behind;
  }

  /** On UTF-16 strings: encoding and decoding both succeed and give the string back exactly when its insertion places
      fit. */
  lemma RoundTrip(e: seq<CodeUnit>)
    requires |e| <= MAX_INT
    ensures Encode(e).Ok? && Decode(Encode(e).value) == Ok(e) <==> Fits(CodePoints(e))
    ensures Encode(e).Ok? && !Fits(CodePoints(e)) ==> Decode(Encode(e).value) == Throw(Overflow)
  {
    hide EncodeCodePoints, DecodeCodePoints, Fits, CountsFit;
    var s := CodePoints(e);
    CodePointsNotLonger(e);
    EncodeThrows(s);
    if Fits(s) { FittingCounts(s); }
    if Encode(e).Ok? {
      DecodeOfEncode(s);
      UnitsOfCodePoints(e);
    }
  }

  lemma {:induction false} CodePointsNotLonger(e: seq<CodeUnit>)
    ensures |CodePoints(e)| <= |e|
  {
    if e != [] {
      if IsHigh(e[0]) && |e| > 1 && IsLow(e[1]) { CodePointsNotLonger(e[2..]); }
      else { CodePointsNotLonger(e[1..]); }
    }
  }

  /** Strings of up to 1927 code points always fit. */
  lemma ShortStringsFit(s: seq<int>)
    requires AreCodePoints(s) && |s| <= 1927
    ensures Fits(s)
  {
    hide Below;
    forall j | 0 <= j < |s| && 128 <= s[j] ensures Place(s, j) <= MAX_INT {
      var m := s[j];
      var h := |Kept(s, m, j)|;
      assert s[j..] == [m] + s[j + 1..];
      BelowAppend([m], s[j + 1..], m);
      BelowOne(m, m);
      BelowLength(s[..j], m + 1);
      BelowLength(s[j + 1..], m);
      assert h <= |s| - 1;
      MulBoth(m - At(s, m, j), 0x10_ffff - 128, h + 1, 1927);
    }
  }

  lemma MulBoth(a: int, b: int, x: nat, y: nat)
    requires a <= b && x <= y && 0 <= b
    ensures a * x <= b * y
  {
    MulOrder2(a, b, x);
    MulOrder2(x, y, b);
  }

  // The places of a string fit some limit.
  lemma {:induction false} SomeLimit(s: seq<int>, n: nat) returns (limit: nat)
    requires n <= |s|
    ensures limit >= MAX_INT && forall j :: 0 <= j < n ==> Place(s, j) <= limit
  {
    hide Place;
    if n == 0 {
      limit := MAX_INT;
    } else {
      limit := SomeLimit(s, n - 1);
      if Place(s, n - 1) > limit { limit := Place(s, n - 1); }
    }
  }

  /** The encoder is injective on all strings that it accepts, also on those that its decoder rejects. */
  lemma EncodeInjective(e: seq<CodeUnit>, f: seq<CodeUnit>)
    requires Encode(e).Ok? && Encode(e) == Encode(f)
    ensures e == f
  {
    hide EncodeCodePoints, DecodeWithin, Place;
    var s, t := CodePoints(e), CodePoints(f);
    var k := SomeLimit(s, |s|);
    var l := SomeLimit(t, |t|);
    var limit := if k < l then l else k;
    CodePointsAre(e);
    CodePointsAre(f);
    DecodeOfEncodeWithin(s, limit);
    DecodeOfEncodeWithin(t, limit);
    UnitsOfCodePoints(e);
    UnitsOfCodePoints(f);
  }

  lemma CodePointsAre(e: seq<CodeUnit>)
    ensures AreCodePoints(CodePoints(e))
  {
  }

  // ---------------------------------------------------------------- strings that encode but do not decode

  // For the first place beyond 31 bits in a string of n code points, a code point and the number of letters before it.
  function LastInserted(n: nat): (r: (int, nat))
    requires n > 0
  {
    if (MAX_INT + 1) % n == n - 1 then (129 + (MAX_INT + 1) / n, 0) else (128 + (MAX_INT + 1) / n, (MAX_INT + 1) % n)
  }

  // n code points: letters, one large code point among them, and U+0080 at the end.
  function Undecodable(n: nat): seq<int>
    requires 1928 <= n <= MAX_INT
  {
    var (c, j) := LastInserted(n);
    seq(j, _ => 0x61) + [c] + seq(n - 2 - j, _ => 0x61) + [0x80]
  }

  lemma LastInsertedIs(n: nat)
    requires 1928 <= n <= MAX_INT
    ensures var (c, j) := LastInserted(n);
      && 128 < c < 0x11_0000 && j <= n - 2
      && MAX_INT < (c - 128) * n + j <= MAX_INT + 2
  {
    var q, r := (MAX_INT + 1) / n, (MAX_INT + 1) % n;
    DivMod(MAX_INT + 1, n);
    Distrib(q, 1, n);
    if q < 1 { MulOrder2(q, 0, n); }
    if q > 1113843 { MulOrder2(1113844, q, n); }
  }

  lemma CountsInUndecodable(n: nat)
    requires 1928 <= n <= MAX_INT
    ensures var s, (c, j) := Undecodable(n), LastInserted(n);
      && |s| == n && AreCodePoints(s) && s[j] == c && s[n - 1] == 0x80
      && (forall i :: 0 <= i < n - 1 && i != j ==> s[i] == 0x61)
      && |Below(s, c)| == n - 1 && |Below(s[..j], c + 1)| == j && |Below(s, 129)| == n - 1
  {
    LastInsertedIs(n);
    var s := Undecodable(n);
    var (c, j) := LastInserted(n);
    var x, y: seq<int> := seq(j, _ => 0x61), seq(n - 2 - j, _ => 0x61);
    hide Below, LastInserted;
    assert s[..j] == x;
    forall m | m == 129 || m == c ensures |Below(s, m)| == n - 1 {
      BelowAppend(x + [c] + y, [0x80], m);
      BelowAppend(x + [c], y, m);
      BelowAppend(x, [c], m);
      AllBelow(x, m);
      AllBelow(y, m);
      BelowOne(c, m);
      BelowOne(0x80, m);
    }
    AllBelow(x, c + 1);
  }

  lemma PlaceInUndecodable(n: nat)
    requires 1928 <= n <= MAX_INT
    ensures var s, (c, j) := Undecodable(n), LastInserted(n);
      && j < |s| && s[j] == c && Previous(s, c) == 128 && Place(s, j) == (c - 128) * n + j
      && (forall i :: 0 <= i < j ==> s[i] != c)
  {
    LastInsertedIs(n);
    CountsInUndecodable(n);
    var s := Undecodable(n);
    var (c, j) := LastInserted(n);
    hide Below, LastInserted, Undecodable;
    assert Previous(s, c) == 128 by { assert s[n - 1] in s; }
    NextPlace(s, c, 0, j);
    KeptEnds(s, c);
    assert s[..0] == [];
  }

  lemma UndecodableEncodes(n: nat)
    requires 1928 <= n <= MAX_INT
    ensures EncodeCodePoints(Undecodable(n)).Ok?
  {
    LastInsertedIs(n);
    CountsInUndecodable(n);
    PlaceInUndecodable(n);
    var s := Undecodable(n);
    var (c, j) := LastInserted(n);
    hide Below, Place, Previous, At, Kept, LastBefore, EncodeCodePoints, AreCodePoints, Undecodable, LastInserted;
    assert s[..|s|] == s;
    assert s[n - 1] in s;
    assert Previous(s, c) == 128;
    assert LastBefore(s, 128, |s|) == n - 1;
    assert Behind(s, c) == |Below(s, 129)| == n - 1;
    PlaceOfFirst(s, n - 1);
    assert CountsFit(s);
    EncodeThrows(s);
  }

  /** For every length from 1928 on, decode(encode(s)) = s fails for some string that the encoder accepts. */
  lemma UndecodableEncoding(n: nat)
    requires 1928 <= n <= MAX_INT
    ensures |Undecodable(n)| == n && AreCodePoints(Undecodable(n)) && EncodeCodePoints(Undecodable(n)).Ok?
    ensures DecodeCodePoints(EncodeCodePoints(Undecodable(n)).value) == Throw(Overflow)
  {
    LastInsertedIs(n);
    CountsInUndecodable(n);
    PlaceInUndecodable(n);
    hide Place, EncodeCodePoints, DecodeCodePoints, Undecodable, LastInserted, AreCodePoints;
    UndecodableEncodes(n);
    DecodeOfEncode(Undecodable(n));
  }

  lemma PlaceOfFirst(s: seq<int>, x: nat)
    requires x < |s| <= MAX_INT && s[x] == 128
    ensures Place(s, x) <= MAX_INT
  {
    hide Below;
    BelowLength(s[..x], 129);
  }
}
