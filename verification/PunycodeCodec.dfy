/** The loops of the punycode codec, proved to compute `Encode` and `Decode` of module Punycode. */
module PunycodeCodec {
  import opened JsNumber
  import opened Punycode

  // ((1023 & s) << 10) + (1023 & o) + 65536
  function Joined(s: CodeUnit, o: CodeUnit): int
  {
    (s as int % 0x400) * 0x400 + o as int % 0x400 + 0x1_0000
  }

  // What position t of a string contributes.
  lemma CodePointAt(e: seq<CodeUnit>, t: nat)
    requires t < |e|
    ensures var pair := IsHigh(e[t]) && t + 1 < |e| && IsLow(e[t + 1]);
      && (pair ==> CodePoints(e[t..]) == [Joined(e[t], e[t + 1])] + CodePoints(e[t + 2..]))
      && (!pair ==> CodePoints(e[t..]) == [e[t] as int] + CodePoints(e[t + 1..]))
  {
    var rest := e[t..];
    assert rest[1..] == e[t + 1..] && (|rest| > 1 ==> rest[1] == e[t + 1] && rest[2..] == e[t + 2..]);
  }

  // ucs2.decode
  method Ucs2Decode(e: seq<CodeUnit>) returns (r: seq<int>)
    ensures r == CodePoints(e)
  {
    hide CodePoints, Joined;
    r := [];
    var t := 0;
    assert e[0..] == e;
    while t < |e|
      invariant 0 <= t <= |e|
      invariant r + CodePoints(e[t..]) == CodePoints(e)
    {
      CodePointAt(e, t);
      var s := e[t];
      t := t + 1;
      if IsHigh(s) && t < |e| {
        var o := e[t];
        t := t + 1;
        if IsLow(o) {
          r := r + [Joined(s, o)];
        } else {
          r := r + [s];
          t := t - 1;
        }
      } else {
        r := r + [s];
      }
    }
    NoUnits(e[t..]);
  }

  lemma NoUnits(e: seq<CodeUnit>)
    requires e == []
    ensures CodePoints(e) == []
  {
  }

  method AdaptBias(delta: int, points: int, first: bool) returns (bias: int)
    requires points > 0
    ensures bias == Adapt(delta, points, first)
  {
    var a := 0;
    var e := if first then delta / 700 else I32(delta) / 2;
    e := e + e / points;
    ghost var e0 := e;
    while 455 < e
      invariant Shrink(e, a) == Shrink(e0, 0)
      decreases e
    {
      e := e / 35;
      a := a + 36;
    }
    bias := if e == -38 then -1 else a + FloorDiv(36 * e, e + 38);
  }

  method WriteVarInt(out: seq<int>, delta: nat, bias: int) returns (r: seq<int>)
    ensures r == out + VarInt(delta, 36, bias)
  {
    var q, k := delta, 36;
    r := out;
    while q >= Threshold(k, bias)
      invariant q >= 0
      invariant r + VarInt(q, k, bias) == out + VarInt(delta, 36, bias)
      decreases q
    {
      var t := Threshold(k, bias);
      VarIntShrinks(q, t);
      r := r + [DigitCode(t + (q - t) % (36 - t))];
      q := (q - t) / (36 - t);
      k := k + 36;
    }
    r := r + [DigitCode(q)];
  }

  // The least code point not yet handled.
  method FindNext(s: seq<int>, a: int) returns (p: int)
    requires a <= MAX_INT
    ensures p == LeastFrom(s, a)
  {
    p := MAX_INT;
    for i := 0 to |s|
      invariant a <= p <= MAX_INT && (p < MAX_INT ==> p in s)
      invariant forall x :: 0 <= x < i && a <= s[x] ==> p <= s[x] || MAX_INT < s[x]
    {
      if a <= s[i] < p {
        p := s[i];
      }
    }
    LeastUnique(s, a, p);
  }

  lemma LeastUnique(s: seq<int>, a: int, p: int)
    requires a <= p <= MAX_INT && (p < MAX_INT ==> p in s)
    requires forall x :: 0 <= x < |s| && a <= s[x] ==> p <= s[x] || MAX_INT < s[x]
    ensures p == LeastFrom(s, a)
  {
    hide LeastFrom;
    var l := LeastFrom(s, a);
    if l < MAX_INT { var i :| 0 <= i < |s| && s[i] == l; }
    if p < MAX_INT { var i :| 0 <= i < |s| && s[i] == p; }
  }

  // A pass handles exactly the occurrences of its code point.
  lemma {:induction false} PassHandles(s: seq<int>, j: nat, m: int, basic: nat, w: nat, st: Encoder)
    requires j <= |s| && w > 0 && st.delta >= 0 && Pass(s, j, m, basic, w, st).Ok?
    ensures Pass(s, j, m, basic, w, st).value.handled
      == st.handled + |Below(s[j..], m + 1)| - |Below(s[j..], m)|
    decreases |s| - j
  {
    hide VarInt, Adapt;
    if j < |s| {
      var t := s[j..];
      assert t[1..] == s[j + 1..] && t[0] == s[j];
      PassHandles(s, j + 1, m, basic, w,
                  if s[j] < m then st.(delta := st.delta + 1) else if s[j] == m then Emit(basic, w, st) else st);
    }
  }

  lemma {:induction false} SomeLeft(s: seq<int>, a: int) returns (i: nat)
    requires |Below(s, a)| < |s|
    ensures i < |s| && s[i] >= a
  {
    if s[0] >= a {
      i := 0;
    } else {
      i := SomeLeft(s[1..], a);
      i := i + 1;
    }
  }

  method CollectBasic(t: seq<int>) returns (out: seq<int>)
    ensures out == Below(t, 128)
  {
    out := [];
    assert t[0..] == t;
    for i := 0 to |t|
      invariant out + Below(t[i..], 128) == Below(t, 128)
    {
      assert t[i..][1..] == t[i + 1..] && t[i..][0] == t[i];
      if t[i] < 128 {
        out := out + [t[i]];
      }
    }
    assert Below(t[|t|..], 128) == [];
  }

  // The loop over the input for one code point.
  method RunPass(t: seq<int>, p: int, d: nat, w: nat, st: Encoder) returns (r: Result<Encoder>)
    requires w > 0 && st.delta >= 0
    ensures r == Pass(t, 0, p, d, w, st)
  {
    hide Pass, VarInt, Adapt;
    var s, f, bias, out := st.delta, st.handled, st.bias, st.out;
    var j := 0;
    while j < |t|
      invariant 0 <= j <= |t| && 0 <= s
      invariant Pass(t, j, p, d, w, Encoder(s, f, bias, out)) == Pass(t, 0, p, d, w, st)
    {
      PassUnfolds(t, j, p, d, w, Encoder(s, f, bias, out));
      if t[j] < p {
        s := s + 1;
        if s > MAX_INT {
          return Throw(Overflow);
        }
      }
      if t[j] == p {
        out := WriteVarInt(out, s, bias);
        bias := AdaptBias(s, w, f == d);
        s := 0;
        f := f + 1;
      }
      j := j + 1;
    }
    PassUnfolds(t, j, p, d, w, Encoder(s, f, bias, out));
    r := Ok(Encoder(s, f, bias, out));
  }

  lemma PassUnfolds(s: seq<int>, j: nat, m: int, basic: nat, w: nat, st: Encoder)
    requires j <= |s| && w > 0 && st.delta >= 0
    ensures Pass(s, j, m, basic, w, st) ==
      if j == |s| then Ok(st)
      else if s[j] < m then
        if st.delta + 1 > MAX_INT then Throw(Overflow)
        else Pass(s, j + 1, m, basic, w, st.(delta := st.delta + 1))
      else if s[j] == m then Pass(s, j + 1, m, basic, w, Emit(basic, w, st))
      else Pass(s, j + 1, m, basic, w, st)
  {
  }

  // One round of the encoder's main loop.
  lemma EncodeUnfolds(t: seq<int>, a: nat, d: nat, st: Encoder, p: int, w: nat, st0: Encoder)
    requires st.handled < |t| && a <= MAX_INT && st.delta >= 0
    requires p == LeastFrom(t, a) && w == st.handled + 1
    requires st0 == st.(delta := st.delta + (p - a) * w) && st0.delta >= 0
    ensures p - a > (MAX_INT - st.delta) / w ==> EncodeFrom(t, a, d, st) == Throw(Overflow)
    ensures p - a <= (MAX_INT - st.delta) / w ==>
      match Pass(t, 0, p, d, w, st0)
      case Throw(e) => EncodeFrom(t, a, d, st) == Throw(e)
      case Ok(st') => st'.delta >= 0 && EncodeFrom(t, a, d, st) == EncodeFrom(t, p + 1, d, st'.(delta := st'.delta + 1))
  {
    hide Pass, LeastFrom;
    PassKeepsDelta(t, 0, p, d, w, st0);
  }

  lemma EncodeStops(t: seq<int>, a: nat, d: nat, st: Encoder)
    requires st.handled >= |t| && a <= MAX_INT && st.delta >= 0
    ensures EncodeFrom(t, a, d, st) == Ok(st.out)
  {
  }

  method EncodeString(e: seq<CodeUnit>) returns (r: Result<seq<int>>)
    ensures r == Encode(e)
  {
    hide Pass, LeastFrom, CodePoints, Below, EncodeFrom;
    var t := Ucs2Decode(e);
    var out := CollectBasic(t);
    var d := |out|;
    if d > 0 {
      out := out + [DASH];
    }
    var a, s, bias, f := 128, 0, 72, d;
    while f < |t|
      invariant 0 <= s && 0 <= a <= 0x11_0000
      invariant f == |Below(t, a)|
      invariant EncodeFrom(t, a, d, Encoder(s, f, bias, out)) == Encode(e)
      decreases 0x11_0000 - a
    {
      ghost var i := SomeLeft(t, a);
      var p := FindNext(t, a);
      var w := f + 1;
      MulNonNegative(p - a, w);
      ghost var st := Encoder(s, f, bias, out);
      EncodeUnfolds(t, a, d, st, p, w, st.(delta := s + (p - a) * w));
      if p - a > (MAX_INT - s) / w {
        return Throw(Overflow);
      }
      s := s + (p - a) * w;
      BelowSame(t, a, p);
      var st0 := Encoder(s, f, bias, out);
      var pass := RunPass(t, p, d, w, st0);
      if pass.Throw? {
        return Throw(pass.error);
      }
      PassHandles(t, 0, p, d, w, st0);
      assert t[0..] == t;
      s, f, bias, out := pass.value.delta, pass.value.handled, pass.value.bias, pass.value.out;
      s := s + 1;
      a := p + 1;
    }
    EncodeStops(t, a, d, Encoder(s, f, bias, out));
    r := Ok(out);
  }

  // The loop over the digits of one integer.
  method ReadDigits(e: seq<CodeUnit>, start: nat, c: int, bias: int) returns (r: Reading)
    ensures r == ReadInt(e, start, c, 1, 36, bias, MAX_INT)
  {
    hide ReadInt;
    var u, s, h, d := start, c, 1, 36;
    while true
      invariant start <= u && h > 0
      invariant ReadInt(e, u, s, h, d, bias, MAX_INT) == ReadInt(e, start, c, 1, 36, bias, MAX_INT)
      decreases |e| - u
    {
      ReadUnfolds(e, u, s, h, d, bias);
      if |e| <= u {
        return Failed(InvalidInput);
      }
      var f := DigitValue(e[u]);
      u := u + 1;
      if 36 <= f || f > (MAX_INT - s) / h {
        return Failed(Overflow);
      }
      s := s + f * h;
      var p := Threshold(d, bias);
      if f < p {
        return Got(u, s);
      }
      if h > MAX_INT / (36 - p) {
        return Failed(Overflow);
      }
      h := h * (36 - p);
      d := d + 36;
    }
  }

  method DecodeString(e: seq<CodeUnit>) returns (r: Result<seq<CodeUnit>>)
    ensures r == Decode(e)
  {
    hide Adapt, ReadInt, AllUnits, Insert;
    var t: seq<int> := [];
    var n := LastDash(e);
    for l := 0 to n
      invariant t == e[..l]
      invariant forall x :: 0 <= x < l ==> e[x] < 128
    {
      if 128 <= e[l] {
        return Throw(NotBasic);
      }
      t := t + [e[l]];
    }
    var u := if 0 < n then n + 1 else 0;
    var s, o, bias := 0, 128, 72;
    while u < |e|
      invariant 0 <= u
      invariant DecodeFrom(e, u, Decoder(t, o, s, bias), MAX_INT) == DecodeCodePoints(e)
      decreases |e| - u
    {
      var c := s;
      var reading := ReadDigits(e, u, c, bias);
      if reading.Failed? {
        return Throw(reading.error);
      }
      u, s := reading.used, reading.sum;
      var v := |t| + 1;
      bias := AdaptBias(s - c, v, c == 0);
      if s / v > MAX_INT - o {
        return Throw(Overflow);
      }
      o := o + s / v;
      s := Remainder(s, v);
      t := Insert(t, s, o);
      s := s + 1;
    }
    r := FromCodePoints(t);
  }

  lemma ReadUnfolds(e: seq<int>, u: nat, s: int, h: nat, d: int, bias: int)
    requires h > 0
    ensures u >= |e| ==> ReadInt(e, u, s, h, d, bias, MAX_INT) == Failed(InvalidInput)
    ensures u < |e| ==>
      var f := DigitValue(e[u]);
      var p := Threshold(d, bias);
      h * (36 - p) > 0 &&
      ReadInt(e, u, s, h, d, bias, MAX_INT) ==
        if 36 <= f || f > (MAX_INT - s) / h then Failed(Overflow)
        else if f < p then Got(u + 1, s + f * h)
        else if h > MAX_INT / (36 - p) then Failed(Overflow)
        else ReadInt(e, u + 1, s + f * h, h * (36 - p), d + 36, bias, MAX_INT)
  {
    if u < |e| { MulPositive(h, 36 - Threshold(d, bias)); }
  }
}
