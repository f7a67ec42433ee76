/** Text forms of a word array: hexadecimal both ways, and Latin-1 input. */
module HexEncoding {
  import opened JsNumber
  import opened WordArrays

  // ---------------------------------------------------------------- what the text forms mean

  function ToHex(b: seq<byte>): string
  {
    if b == [] then "" else [HexDigit(b[0] as int / 16), HexDigit(b[0] as int % 16)] + ToHex(b[1..])
  }

  predicate IsHex(s: string)
  {
    |s| % 2 == 0 && forall i :: 0 <= i < |s| ==> IsHexDigit(s[i])
  }

  function FromHex(s: string): seq<byte>
    requires IsHex(s)
  {
    if s == "" then [] else [HexValue(s[0]) * 16 + HexValue(s[1])] + FromHex(s[2..])
  }

  // ---------------------------------------------------------------- round trips

  lemma {:induction false} FromToHex(b: seq<byte>)
    ensures IsHex(ToHex(b)) && FromHex(ToHex(b)) == b
  {
    hide HexDigit, HexValue, IsHexDigit;
    if b != [] {
      var x: nat, y: nat := b[0] as int / 16, b[0] as int % 16;
      var h, t := ToHex(b), ToHex(b[1..]);
      HexDigitRoundTrip(x);
      HexDigitRoundTrip(y);
      FromToHex(b[1..]);
      assert h == [HexDigit(x), HexDigit(y)] + t && h[2..] == t;
    }
  }

  // Lower-case text comes back unchanged.
  lemma {:induction false} ToFromHex(s: string)
    requires IsHex(s) && forall i :: 0 <= i < |s| ==> !('A' <= s[i] <= 'F')
    ensures ToHex(FromHex(s)) == s
  {
    hide HexDigit, HexValue;
    if s != "" {
      var t := s[2..];
      ToFromHex(t);
      LowerCaseDigit(s[0]);
      LowerCaseDigit(s[1]);
      var b := HexValue(s[0]) * 16 + HexValue(s[1]);
      assert b / 16 == HexValue(s[0]) && b % 16 == HexValue(s[1]);
      assert FromHex(s)[1..] == FromHex(t);
      assert s == [s[0], s[1]] + t;
    }
  }

  lemma LowerCaseDigit(c: char)
    requires IsHexDigit(c) && !('A' <= c <= 'F')
    ensures HexDigit(HexValue(c)) == c
  {
  }

  lemma {:induction false} ToHexAppend(b: seq<byte>, c: byte)
    ensures ToHex(b + [c]) == ToHex(b) + [HexDigit(c as int / 16), HexDigit(c as int % 16)]
  {
    if b == [] {
      assert b + [c] == [c] && ToHex([c][1..]) == "";
    } else {
      assert (b + [c])[1..] == b[1..] + [c];
      ToHexAppend(b[1..], c);
    }
  }

  lemma {:induction false} FromHexAppend(s: string, hi: char, lo: char)
    requires IsHex(s) && IsHexDigit(hi) && IsHexDigit(lo)
    ensures IsHex(s + [hi, lo]) && FromHex(s + [hi, lo]) == FromHex(s) + [HexValue(hi) * 16 + HexValue(lo)]
  {
    if s == "" {
      assert s + [hi, lo] == [hi, lo] && FromHex([hi, lo][2..]) == [];
    } else {
      assert (s + [hi, lo])[2..] == s[2..] + [hi, lo];
      FromHexAppend(s[2..], hi, lo);
    }
  }

  // ---------------------------------------------------------------- the code

  // Hex.stringify
  method Stringify(w: WordArray) returns (r: string)
    ensures r == ToHex(w.Bytes())
  {
    hide ByteAt, And, Shr, ToHex;
    r := "";
    assert w.Bytes()[..0] == [];
    ToHexEmpty();
    for j := 0 to w.sigBytes
      invariant r == ToHex(w.Bytes()[..j])
    {
      ReadByte(w.words, j);
      var k: byte := And(Shr(WordAt(w.words, j / 4), 24 - 8 * (j % 4)), 255);
      assert k == w.Bytes()[j];
      NibblesOf(k);
      r := r + [HexDigit(Shr(k, 4))];
      r := r + [HexDigit(And(k, 15))];
      ToHexAppend(w.Bytes()[..j], k);
      assert w.Bytes()[..j + 1] == w.Bytes()[..j] + [k];
    }
    assert w.Bytes()[..w.sigBytes] == w.Bytes();
  }

  lemma ToHexEmpty()
    ensures ToHex([]) == ""
  {
  }

  lemma NibblesOf(k: byte)
    ensures Shr(k, 4) == k as int / 16 && And(k, 15) == k as int % 16
  {
    hide Shr, And;
    Shifts(k);
    Masks(k);
    assert U32(k) == k;
  }

  // ---------------------------------------------------------------- parseInt

  // What JavaScript takes for white space.
  predicate IsSpace(c: char)
  {
    || '\t' <= c <= '\r' || c == ' ' || c == '\U{a0}' || c == '\U{1680}' || '\U{2000}' <= c <= '\U{200a}'
    || c == '\U{2028}' || c == '\U{2029}' || c == '\U{202f}' || c == '\U{205f}' || c == '\U{3000}' || c == '\U{feff}'
  }

  // The value of the digits in front, behind those read before.
  function Digits(s: string, before: nat): nat
  {
    if s != "" && IsHexDigit(s[0]) then Digits(s[1..], before * 16 + HexValue(s[0])) else before
  }

  function Unsigned(s: string): nat
  {
    if |s| >= 2 && s[0] == '0' && (s[1] == 'x' || s[1] == 'X') then Digits(s[2..], 0) else Digits(s, 0)
  }

  // parseInt(s, 16), with zero for NaN, which is what a shift makes of it.
  function ParseInt(s: string): int
  {
    if s == "" then 0
    else if IsSpace(s[0]) then ParseInt(s[1..])
    else if s[0] == '-' then -(Unsigned(s[1..]) as int)
    else if s[0] == '+' then Unsigned(s[1..])
    else Unsigned(s)
  }

  // Digits stop at the first other character.
  lemma DigitsStop(s: string, before: nat)
    requires s != "" ==> !IsHexDigit(s[0])
    ensures Digits(s, before) == before
  {
  }

  lemma DigitsGoOn(s: string, before: nat)
    requires s != "" && IsHexDigit(s[0])
    ensures Digits(s, before) == Digits(s[1..], before * 16 + HexValue(s[0]))
  {
  }

  lemma OneDigit(s: string)
    requires 1 <= |s| && IsHexDigit(s[0])
    requires |s| >= 2 ==> !IsHexDigit(s[1]) && s[1] != 'x' && s[1] != 'X'
    ensures Unsigned(s) == HexValue(s[0])
  {
    hide Digits;
    DigitsGoOn(s, 0);
    DigitsStop(s[1..], HexValue(s[0]));
  }

  lemma TwoDigits(s: string)
    requires |s| == 2 && IsHexDigit(s[0]) && IsHexDigit(s[1])
    ensures Unsigned(s) == 16 * HexValue(s[0]) + HexValue(s[1])
  {
    hide Digits;
    DigitsGoOn(s, 0);
    DigitsGoOn(s[1..], HexValue(s[0]));
    DigitsStop(s[1..][1..], 16 * HexValue(s[0]) + HexValue(s[1]));
  }

  // Digits in both cases and the characters behind them, as parseInt takes them.
  lemma DigitSamples()
    ensures ParseInt("7f") == 127 && ParseInt("Fe") == 254 && ParseInt("1g") == 1 && ParseInt("g1") == 0
  {
    TwoDigits("7f");
    TwoDigits("Fe");
    OneDigit("1g");
    assert Unsigned("g1") == 0;
  }

  // Signs and spaces before the digits, and no digits at all.
  lemma SignSamples()
    ensures ParseInt("-1") == -1 && ParseInt("+a") == 10 && ParseInt(" 7") == 7 && ParseInt("") == 0
  {
    assert "-1"[1..] == "1" && "+a"[1..] == "a" && " 7"[1..] == "7";
    OneDigit("1");
    OneDigit("a");
    OneDigit("7");
  }

  // The number for byte i: two characters, or the last one of a text of odd length.
  function Pair(s: string, i: nat): int
    requires 2 * i < |s|
  {
    ParseInt(s[2 * i..if 2 * i + 2 <= |s| then 2 * i + 2 else |s|])
  }

  lemma PairRange(s: string, i: nat)
    requires 2 * i < |s|
    ensures -15 <= Pair(s, i) <= 255
  {
    var t := s[2 * i..if 2 * i + 2 <= |s| then 2 * i + 2 else |s|];
    ParseIntRange(t);
  }

  lemma ParseIntRange(t: string)
    requires |t| <= 2
    ensures -15 <= ParseInt(t) <= 255
  {
    hide ParseInt, Unsigned, Digits;
    if t == "" {
      ParseIntStep(t);
    } else {
      ParseIntStep(t);
      UnsignedRange(t);
      UnsignedRange(t[1..]);
      ParseIntStep(t[1..]);
      if |t| == 2 {
        UnsignedRange(t[1..][1..]);
        ParseIntStep(t[1..][1..]);
      }
    }
  }

  lemma ParseIntStep(t: string)
    ensures ParseInt(t) == if t == "" then 0 else if IsSpace(t[0]) then ParseInt(t[1..])
      else if t[0] == '-' then -(Unsigned(t[1..]) as int) else if t[0] == '+' then Unsigned(t[1..]) else Unsigned(t)
  {
  }

  lemma UnsignedRange(t: string)
    requires |t| <= 2
    ensures Unsigned(t) <= if |t| == 2 then 255 else if |t| == 1 then 15 else 0
  {
    hide IsHexDigit, HexValue;
    if |t| == 2 {
      assert t[2..] == "" == t[1..][1..];
      assert Digits(t[2..], 0) == 0;
      assert Digits(t, 0) <= 255 by {
        if IsHexDigit(t[0]) && IsHexDigit(t[1]) {
          assert Digits(t, 0) == Digits(t[1..], HexValue(t[0])) == HexValue(t[0]) * 16 + HexValue(t[1]);
        }
      }
    } else if |t| == 1 {
      assert t[1..] == "";
      assert Digits(t, 0) == if IsHexDigit(t[0]) then HexValue(t[0]) else 0;
    }
  }

  // A digit pair gives its value.
  lemma PairOfDigits(s: string, i: nat)
    requires 2 * i + 1 < |s| && IsHexDigit(s[2 * i]) && IsHexDigit(s[2 * i + 1])
    ensures Pair(s, i) == HexValue(s[2 * i]) * 16 + HexValue(s[2 * i + 1])
  {
    hide HexValue;
    var t := s[2 * i..2 * i + 2];
    assert t[0] == s[2 * i] && t[1] == s[2 * i + 1] && t[1..][0] == t[1] && t[1..][1..] == "";
    assert Digits(t, 0) == Digits(t[1..], HexValue(t[0])) == HexValue(t[0]) * 16 + HexValue(t[1]);
    ParseIntStep(t);
    assert !IsSpace(t[0]) && Unsigned(t) == Digits(t, 0);
    hide ParseInt;
    assert Pair(s, i) == ParseInt(t);
  }

  // ---------------------------------------------------------------- parsing

  // Byte i after n pairs: a negative number behind it in its word covers it with ones.
  ghost function ParsedByte(s: string, i: nat, n: nat): byte
    requires i < n && 2 * n <= |s| + 1
  {
    if exists m :: i < m < n && m / 4 == i / 4 && Pair(s, m) < 0 then 255 else Pair(s, i) % 256
  }

  ghost function ParsedBytes(s: string): seq<byte>
  {
    var n := (|s| + 1) / 2;
    seq(n, i requires 0 <= i < n => ParsedByte(s, i, n))
  }

  /** Text of digit pairs gives the bytes of the pairs. */
  lemma ParsedHex(s: string)
    requires IsHex(s)
    ensures ParsedBytes(s) == FromHex(s)
  {
    hide FromHex, Pair, HexValue;
    var n := |s| / 2;
    forall i: nat | i < n ensures Pair(s, i) == HexValue(s[2 * i]) * 16 + HexValue(s[2 * i + 1]) { PairOfDigits(s, i); }
    FromHexLength(s);
    forall i: nat | i < n ensures ParsedByte(s, i, n) == FromHex(s)[i] { FromHexAt(s, i); }
  }

  lemma {:induction false} FromHexLength(s: string)
    requires IsHex(s)
    ensures |FromHex(s)| == |s| / 2
  {
    if s != "" { FromHexLength(s[2..]); }
  }

  lemma {:induction false} FromHexAt(s: string, i: nat)
    requires IsHex(s) && 2 * i < |s|
    ensures |FromHex(s)| == |s| / 2 && FromHex(s)[i] == HexValue(s[2 * i]) * 16 + HexValue(s[2 * i + 1])
  {
    hide HexValue;
    FromHexLength(s);
    if i > 0 {
      FromHexAt(s[2..], i - 1);
      assert s[2..][2 * i - 2] == s[2 * i] && s[2..][2 * i - 1] == s[2 * i + 1];
    }
  }

  // words[i >>> 2] |= v << 24 - 8 * (i % 4), for a number that may be negative
  function OrNumber(words: seq<int>, i: nat, v: int): seq<int>
  {
    Put(words, i / 4, Or(WordAt(words, i / 4), Shl(v, 24 - 8 * (i % 4))))
  }

  function NegativeWord(d: int, p: nat): uint32
    requires 1 <= d <= 15
  {
    if p == 0 then Word(256 - d, 0, 0, 0) else if p == 1 then Word(255, 256 - d, 0, 0)
    else if p == 2 then Word(255, 255, 256 - d, 0) else Word(255, 255, 255, 256 - d)
  }

  lemma LanesOfNegative(d: int, p: nat, r: nat)
    requires 1 <= d <= 15 && p < 4 && r < 4
    ensures Lane(Shl(-d, 24 - 8 * p), r) == if r < p then 255 else if r == p then 256 - d else 0
  {
    hide Shl, Pow2, Lane, U32;
    NegativePattern(d, p);
    LaneOfPattern(Shl(-d, 24 - 8 * p), NegativeWord(d, p), r);
    LanesOfWord(256 - d, 0, 0, 0);
    LanesOfWord(255, 256 - d, 0, 0);
    LanesOfWord(255, 255, 256 - d, 0);
    LanesOfWord(255, 255, 255, 256 - d);
  }

  lemma NegativePattern(d: int, p: nat)
    requires 1 <= d <= 15 && p < 4
    ensures U32(Shl(-d, 24 - 8 * p)) == NegativeWord(d, p) == U32(NegativeWord(d, p))
  {
    hide Shl, Pow2, U32;
    NegativeNumbers(d);
    if p == 0 {
      assert Pow2(24) == 0x100_0000 by { Pow2Values(); }
      ShlIs(-d, 24, 0x100_0000);
    } else if p == 1 {
      assert Pow2(16) == 0x1_0000 by { Pow2Values(); }
      ShlIs(-d, 16, 0x1_0000);
    } else if p == 2 {
      assert Pow2(8) == 0x100 by { Pow2Values(); }
      ShlIs(-d, 8, 0x100);
    } else {
      assert Pow2(0) == 1 by { Pow2Values(); }
      ShlIs(-d, 0, 1);
    }
  }

  lemma NegativeNumbers(d: int)
    requires 1 <= d <= 15
    ensures var u := 0x1_0000_0000 - d;
      && U32(-d) == u && U32(u * 0x100_0000) == 0x1_0000_0000 - d * 0x100_0000
      && U32(u * 0x1_0000) == 0x1_0000_0000 - d * 0x1_0000
      && U32(u * 0x100) == 0x1_0000_0000 - d * 0x100 && U32(u * 1) == u
    ensures forall p: nat :: p < 4 ==> U32(NegativeWord(d, p)) == NegativeWord(d, p)
  {
  }

  lemma {:induction false} OrOnes(x: nat, k: nat)
    requires x < Pow2(k)
    ensures BitOr(x, Pow2(k) - 1) == Pow2(k) - 1
  {
    if k == 0 {
      OrZero(0);
    } else {
      OrStep(x, Pow2(k) - 1);
      OrOnes(x / 2, k - 1);
    }
  }

  function ByteAfter(words: seq<int>, i: nat, v: int, j: nat): byte
  {
    if j == i then v % 256 else if v < 0 && j < i && j / 4 == i / 4 then 255 else ByteAt(words, j)
  }

  lemma OrNumberIs(words: seq<int>, i: nat, v: int)
    requires -15 <= v <= 255 && ByteAt(words, i) == 0
    ensures forall j: nat :: ByteAt(OrNumber(words, i, v), j) == ByteAfter(words, i, v, j)
  {
    if v >= 0 {
      hide Lane, Put, Or, Shl;
      OrByteStores(words, i, v);
      assert OrNumber(words, i, v) == OrByte(words, i, v);
    } else {
      hide Lane, Or, Shl, Put, BitOr;
      var words' := OrNumber(words, i, v);
      ZeroLanes(i % 4);
      forall j: nat ensures ByteAt(words', j) == ByteAfter(words, i, v, j) {
        ZeroLanes(j % 4);
        if j / 4 == i / 4 {
          OrNegative(WordAt(words, i / 4), -v, i % 4, j % 4);
        } else if j / 4 < |words'| {
          assert words'[j / 4] == if j / 4 < |words| then words[j / 4] else 0;
        }
      }
    }
  }

  lemma OrNegative(w: int, d: int, p: nat, r: nat)
    requires 1 <= d <= 15 && p < 4 && r < 4 && Lane(w, p) == 0
    ensures Lane(Or(w, Shl(-d, 24 - 8 * p)), r) == if r < p then 255 else if r == p then 256 - d else Lane(w, r)
  {
    hide Lane, Or, Shl, BitOr;
    assert Pow2(8) == 256 by { Pow2Values(); }
    LaneOr(w, Shl(-d, 24 - 8 * p), r);
    LanesOfNegative(d, p, r);
    OrZero(Lane(w, r));
    OrZero(256 - d);
    OrOnes(Lane(w, r), 8);
  }

  /** The loop of Hex.parse, for any text; the number of characters j and j + 1 goes to word j >>> 3, shifted by
      24 - 4 * (j % 8). */
  method ParseWords(s: string) returns (g: seq<int>)
    ensures Clean(g, (|s| + 1) / 2) && BytesOf(g, (|s| + 1) / 2) == ParsedBytes(s)
  {
    hide ByteAt, OrNumber, Pair;
    g := [];
    NoBytes();
    for n := 0 to (|s| + 1) / 2
      invariant |g| == (n + 3) / 4
      invariant forall i: nat :: i < n ==> ByteAt(g, i) == ParsedByte(s, i, n)
      invariant forall i: nat :: i >= n ==> ByteAt(g, i) == 0
    {
      PairRange(s, n);
      PlaceOfPair(n);
      OrNumberIs(g, n, Pair(s, n));
      OrNumberLength(g, n, Pair(s, n));
      forall i: nat | i < n ensures ParsedByte(s, i, n + 1)
          == if Pair(s, n) < 0 && i / 4 == n / 4 then 255 else ParsedByte(s, i, n)
      {
        OneMorePair(s, i, n);
      }
      g := OrNumber(g, n, Pair(s, n));
    }
  }

  lemma NoBytes()
    ensures forall i: nat :: ByteAt([], i) == 0
  {
  }

  lemma OneMorePair(s: string, i: nat, n: nat)
    requires i < n && 2 * n + 2 <= |s| + 1
    ensures ParsedByte(s, i, n + 1) == if Pair(s, n) < 0 && i / 4 == n / 4 then 255 else ParsedByte(s, i, n)
  {
    hide Pair;
    if exists m :: i < m < n && m / 4 == i / 4 && Pair(s, m) < 0 {
      var m :| i < m < n && m / 4 == i / 4 && Pair(s, m) < 0;
      assert m < n + 1;
    }
  }

  lemma OrNumberLength(words: seq<int>, i: nat, v: int)
    ensures |OrNumber(words, i, v)| == if i / 4 < |words| then |words| else i / 4 + 1
  {
  }

  // Hex.parse of text of even length.
  method Parse(s: string) returns (w: WordArray)
    requires |s| % 2 == 0
    ensures fresh(w) && w.Clamped() && w.Bytes() == ParsedBytes(s)
    ensures IsHex(s) ==> w.Bytes() == FromHex(s)
  {
    hide ParsedBytes, FromHex, Clean;
    var g := ParseWords(s);
    w := new WordArray(g, |s| / 2);
    if IsHex(s) { ParsedHex(s); }
  }

  // The code's j >>> 3 and 24 - 4 * (j % 8) are word and shift of byte j / 2.
  lemma PlaceOfPair(n: nat)
    ensures 2 * n / 8 == n / 4 && 24 - 4 * (2 * n % 8) == 24 - 8 * (n % 4)
  {
  }

  lemma AppendOne(g: seq<int>, n: nat, b: byte)
    requires Clean(g, n)
    ensures Clean(OrByte(g, n, b), n + 1) && BytesOf(OrByte(g, n, b), n + 1) == BytesOf(g, n) + [b]
  {
    hide Lane, Or, Shl;
    OrByteStores(g, n, b);
  }

  function LowBytes(s: seq<int>): seq<byte>
  {
    seq(|s|, i requires 0 <= i < |s| => s[i] % 256)
  }

  // Latin1.parse keeps the low byte of each character code.
  method ParseLatin1(s: seq<int>) returns (w: WordArray)
    ensures fresh(w) && w.Clamped() && w.Bytes() == LowBytes(s)
  {
    var g: seq<int> := [];
    assert Clean(g, 0) && BytesOf(g, 0) == LowBytes(s[..0]);
    hide And, OrByte, Clean, BytesOf, LowBytes;
    for j := 0 to |s|
      invariant Clean(g, j) && BytesOf(g, j) == LowBytes(s[..j])
    {
      LowByteOf(s[j]);
      LowBytesStep(s, j);
      var b: byte := And(s[j], 255);
      AppendOne(g, j, b);
      g := OrByte(g, j, b);
    }
    assert s[..|s|] == s;
    w := new WordArray(g, |s|);
  }

  lemma LowByteOf(x: int)
    ensures And(x, 255) == x % 256
  {
    hide And, U32;
    Masks(x);
    LowBytePattern(x);
  }

  lemma LowBytePattern(x: int)
    ensures U32(x) % 256 == x % 256
  {
  }

  lemma LowBytesStep(s: seq<int>, j: nat)
    requires j < |s|
    ensures LowBytes(s[..j + 1]) == LowBytes(s[..j]) + [s[j] % 256]
  {
  }
}
