/** The punycode codec bundled with the telemetry library.

    Strings are sequences of UTF-16 code units.  `Encode` and `Decode` say what the codec computes, exceptions
    included; the methods below are its loops. */
module Punycode {
  import opened JsNumber

  datatype Error = Overflow | NotBasic | InvalidInput | RangeError

  datatype Result<T> = Ok(value: T) | Throw(error: Error)

  const MAX_INT: nat := 0x7fff_ffff
  const DASH: int := 0x2d

  // ---------------------------------------------------------------- code points

  predicate IsHigh(c: CodeUnit)
  {
    0xd800 <= c <= 0xdbff
  }

  predicate IsLow(c: CodeUnit)
  {
    0xdc00 <= c <= 0xdfff
  }

  // A surrogate pair is one code point; an unpaired surrogate stands for itself.
  function CodePoints(e: seq<CodeUnit>): (r: seq<int>)
    ensures forall i :: 0 <= i < |r| ==> 0 <= r[i] < 0x11_0000
  {
    if e == [] then []
    else if IsHigh(e[0]) && |e| > 1 && IsLow(e[1]) then
      [(e[0] as int % 0x400) * 0x400 + e[1] as int % 0x400 + 0x1_0000] + CodePoints(e[2..])
    else [e[0] as int] + CodePoints(e[1..])
  }

  predicate IsCodePoint(c: int)
  {
    0 <= c < 0x11_0000
  }

  // String.fromCodePoint for one code point
  function Units(c: int): seq<CodeUnit>
    requires IsCodePoint(c)
  {
    if c < 0x1_0000 then [c] else [0xd800 + (c - 0x1_0000) / 0x400, 0xdc00 + (c - 0x1_0000) % 0x400]
  }

  function AllUnits(s: seq<int>): seq<CodeUnit>
    requires forall i :: 0 <= i < |s| ==> IsCodePoint(s[i])
  {
    if s == [] then [] else Units(s[0]) + AllUnits(s[1..])
  }

  function FromCodePoints(s: seq<int>): Result<seq<CodeUnit>>
  {
    if forall i :: 0 <= i < |s| ==> IsCodePoint(s[i]) then Ok(AllUnits(s)) else Throw(RangeError)
  }

  // ---------------------------------------------------------------- digits, thresholds, bias

  function DigitCode(d: int): int
  {
    d + 22 + if d < 26 then 75 else 0
  }

  // The comparisons have no lower bound, so characters below '0', and those between the letter ranges, come out as
  // digits too, some of them negative.
  function DigitValue(c: int): int
  {
    if c - 48 < 10 then c - 22 else if c - 65 < 26 then c - 65 else if c - 97 < 26 then c - 97 else 36
  }

  function Threshold(k: int, bias: int): (t: int)
    ensures 1 <= t <= 26
  {
    if k <= bias then 1 else if bias + 26 <= k then 26 else k - bias
  }

  function Shrink(e: int, a: int): (int, int)
    decreases e
  {
    if 455 < e then Shrink(e / 35, a + 36) else (e, a)
  }

  // Rounding down of x / y for a divisor of either sign.
  function FloorDiv(x: int, y: int): int
    requires y != 0
  {
    if y > 0 then x / y else -x / -y
  }

  function Adapt(delta: int, points: int, first: bool): int
    requires points > 0
  {
    var e := if first then delta / 700 else I32(delta) / 2;
    var (e', a) := Shrink(e + e / points, 0);
    // The code divides by zero when e' is -38; the bias is then minus infinity, and every bias below 11 gives the same
    // thresholds as that one.
    if e' == -38 then -1 else a + FloorDiv(36 * e', e' + 38)
  }

  // ---------------------------------------------------------------- encoding

  // The digits of a generalized variable-length integer.
  function VarInt(q: nat, k: int, bias: int): seq<int>
  {
    var t := Threshold(k, bias);
    if q < t then [DigitCode(q)]
    else
      VarIntShrinks(q, t);
      [DigitCode(t + (q - t) % (36 - t))] + VarInt((q - t) / (36 - t), k + 36, bias)
  }

  lemma VarIntShrinks(q: nat, t: int)
    requires 1 <= t <= 26 && t <= q
    ensures 0 <= (q - t) / (36 - t) < q
  {
    DivMod(q - t, 36 - t);
    var d := (q - t) / (36 - t);
    if d >= q { MulOrderly(q, d, 36 - t); }
    if d < 0 { MulOrderly(1, -d, 36 - t); }
  }

  lemma MulOrderly(a: int, b: int, m: int)
    requires a <= b && m >= 10 && a >= 0
    ensures b * m >= a * m && b * m >= 10 * b
  {
  }

  // The code points below a limit, in order.
  function Below(s: seq<int>, limit: int): (r: seq<int>)
    ensures |r| <= |s|
  {
    if s == [] then []
    else if s[0] < limit then [s[0]] + Below(s[1..], limit)
    else Below(s[1..], limit)
  }

  lemma {:induction false} BelowSame(s: seq<int>, a: int, m: int)
    requires a <= m && forall i :: 0 <= i < |s| && a <= s[i] ==> m <= s[i]
    ensures Below(s, a) == Below(s, m)
  {
    if s != [] { BelowSame(s[1..], a, m); }
  }

  datatype Encoder = Encoder(delta: int, handled: nat, bias: int, out: seq<int>)

  function Emit(basic: nat, w: nat, st: Encoder): Encoder
    requires w > 0 && st.delta >= 0
  {
    Encoder(0, st.handled + 1, Adapt(st.delta, w, st.handled == basic), st.out + VarInt(st.delta, 36, st.bias))
  }

  // One pass over the input for code point m; w is the value of handled + 1 when the pass began.
  function Pass(s: seq<int>, j: nat, m: int, basic: nat, w: nat, st: Encoder): Result<Encoder>
    requires j <= |s| && w > 0
    requires st.delta >= 0
    decreases |s| - j
  {
    if j == |s| then Ok(st)
    else if s[j] < m then
      if st.delta + 1 > MAX_INT then Throw(Overflow)
      else Pass(s, j + 1, m, basic, w, st.(delta := st.delta + 1))
    else if s[j] == m then Pass(s, j + 1, m, basic, w, Emit(basic, w, st))
    else Pass(s, j + 1, m, basic, w, st)
  }

  // The least code point that is at least a, or MAX_INT.
  function LeastFrom(s: seq<int>, a: int): (m: int)
    ensures m <= MAX_INT
    ensures a <= MAX_INT ==> a <= m
    ensures m < MAX_INT ==> m in s
    ensures forall i :: 0 <= i < |s| && a <= s[i] ==> m <= s[i] || MAX_INT < s[i]
  {
    if s == [] then MAX_INT
    else
      var m := LeastFrom(s[1..], a);
      assert forall i :: 0 < i < |s| ==> s[i] == s[1..][i - 1];
      if a <= s[0] < m then s[0] else m
  }

  function EncodeFrom(s: seq<int>, a: nat, basic: nat, st: Encoder): Result<seq<int>>
    requires a <= MAX_INT + 1 && st.delta >= 0
    decreases MAX_INT + 1 - a
  {
    if st.handled >= |s| || a > MAX_INT then Ok(st.out)
    else
      var m := LeastFrom(s, a);
      var w := st.handled + 1;
      if m - a > (MAX_INT - st.delta) / w then Throw(Overflow)
      else
        MulNonNegative(m - a, w);
        match Pass(s, 0, m, basic, w, st.(delta := st.delta + (m - a) * w))
        case Throw(e) => Throw(e)
        case Ok(st') =>
          PassKeepsDelta(s, 0, m, basic, w, st.(delta := st.delta + (m - a) * w));
          EncodeFrom(s, m + 1, basic, st'.(delta := st'.delta + 1))
  }

  lemma MulNonNegative(a: int, b: int)
    requires a >= 0 && b >= 0
    ensures a * b >= 0
  {
  }

  lemma {:induction false} PassKeepsDelta(s: seq<int>, j: nat, m: int, basic: nat, w: nat, st: Encoder)
    requires j <= |s| && w > 0 && st.delta >= 0
    ensures Pass(s, j, m, basic, w, st).Ok? ==> Pass(s, j, m, basic, w, st).value.delta >= 0
    decreases |s| - j
  {
    if j < |s| {
      if s[j] < m {
        if st.delta + 1 <= MAX_INT { PassKeepsDelta(s, j + 1, m, basic, w, st.(delta := st.delta + 1)); }
      } else if s[j] == m {
        PassKeepsDelta(s, j + 1, m, basic, w, Emit(basic, w, st));
      } else {
        PassKeepsDelta(s, j + 1, m, basic, w, st);
      }
    }
  }

  function EncodeCodePoints(s: seq<int>): Result<seq<int>>
  {
    var basic := Below(s, 128);
    EncodeFrom(s, 128, |basic|, Encoder(0, |basic|, 72, if basic == [] then [] else basic + [DASH]))
  }

  function Encode(e: seq<CodeUnit>): Result<seq<int>>
  {
    EncodeCodePoints(CodePoints(e))
  }

  // ---------------------------------------------------------------- decoding

  datatype Reading = Got(used: nat, sum: int) | Failed(error: Error)

  // Reads one variable-length integer from position u on and adds it to sum.  The limit is MAX_INT in the code; what
  // the decoder does with larger ones tells what its guards keep out.
  function ReadInt(input: seq<int>, u: nat, sum: int, w: nat, k: int, bias: int, limit: nat): (r: Reading)
    requires w > 0
    ensures r.Got? ==> u < r.used <= |input|
    decreases |input| - u
  {
    if u >= |input| then Failed(InvalidInput)
    else
      var d := DigitValue(input[u]);
      if 36 <= d || d > (limit - sum) / w then Failed(Overflow)
      else
        var t := Threshold(k, bias);
        if d < t then Got(u + 1, sum + d * w)
        else if w > limit / (36 - t) then Failed(Overflow)
        else
          MulPositive(w, 36 - t);
          ReadInt(input, u + 1, sum + d * w, w * (36 - t), k + 36, bias, limit)
  }

  lemma MulPositive(a: int, b: int)
    requires a > 0 && b > 0
    ensures a * b > 0
  {
  }

  datatype Decoder = Decoder(out: seq<int>, n: int, i: int, bias: int)

  // Array.prototype.splice(i, 0, c): a negative start counts from the end.
  function Insert(out: seq<int>, i: int, c: int): seq<int>
  {
    var at := if i < 0 then (if |out| + i < 0 then 0 else |out| + i) else if i > |out| then |out| else i;
    out[..at] + [c] + out[at..]
  }

  // x % y of JavaScript, which takes the sign of x.
  function Remainder(x: int, y: int): int
    requires y > 0
  {
    if x >= 0 then x % y else -(-x % y)
  }

  function Inserted(st: Decoder, sum: int): Decoder
  {
    var points := |st.out| + 1;
    var n := st.n + sum / points;
    var i := Remainder(sum, points);
    Decoder(Insert(st.out, i, n), n, i + 1, Adapt(sum - st.i, points, st.i == 0))
  }

  function DecodeFrom(input: seq<int>, u: nat, st: Decoder, limit: nat): Result<seq<int>>
    decreases |input| - u
  {
    if u >= |input| then Ok(st.out)
    else
      match ReadInt(input, u, st.i, 1, 36, st.bias, limit)
      case Failed(e) => Throw(e)
      case Got(u', sum) =>
        var points := |st.out| + 1;
        if sum / points > limit - st.n then Throw(Overflow)
        else DecodeFrom(input, u', Inserted(st, sum), limit)
  }

  // The position of the last dash, or 0 when there is none.
  function LastDash(e: seq<int>): (n: nat)
    ensures n <= |e| && (e != [] ==> n < |e|)
  {
    if e == [] then 0 else if e[|e| - 1] == DASH then |e| - 1 else LastDash(e[..|e| - 1])
  }

  function DecodeWithin(e: seq<int>, limit: nat): Result<seq<int>>
  {
    var n := LastDash(e);
    if exists i :: 0 <= i < n && e[i] >= 128 then Throw(NotBasic)
    else DecodeFrom(e, if n > 0 then n + 1 else 0, Decoder(e[..n], 128, 0, 72), limit)
  }

  function DecodeCodePoints(e: seq<int>): Result<seq<int>>
  {
    DecodeWithin(e, MAX_INT)
  }

  function Decode(e: seq<int>): Result<seq<CodeUnit>>
  {
    match DecodeCodePoints(e)
    case Throw(error) => Throw(error)
    case Ok(s) => FromCodePoints(s)
  }
}
