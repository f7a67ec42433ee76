/** Known encodings: texts with their Punycode, one of them from section 7.1 of RFC 3492, worked out from the
    definition in both directions. */
module PunycodeSamples {
  import opened JsNumber
  import opened Punycode
  import opened PunycodeRoundTrip

  // The character codes of a text.
  function Codes(text: string): (codes: seq<int>)
    ensures |codes| == |text| && forall i :: 0 <= i < |text| ==> codes[i] == text[i] as int
  {
    seq(|text|, i requires 0 <= i < |text| => text[i] as int)
  }

  lemma CodesJoin(s: string, t: string)
    ensures Codes(s + t) == Codes(s) + Codes(t)
  {
  }

  // A text without surrogates is its code points.
  lemma {:induction false} PlainCodePoints(e: seq<CodeUnit>, s: seq<int>)
    requires |s| == |e| && forall i :: 0 <= i < |e| ==> s[i] == e[i] as int && !IsHigh(e[i])
    ensures CodePoints(e) == s
  {
    if e != [] {
      PlainCodePoints(e[1..], s[1..]);
      assert s == [s[0]] + s[1..];
    }
  }

  // The least code point left.
  lemma LeastIs(s: seq<int>, a: int, m: int)
    requires m in s && a <= m < MAX_INT && forall i :: 0 <= i < |s| ==> s[i] < a || m <= s[i] < MAX_INT
    ensures LeastFrom(s, a) == m
  {
    hide LeastFrom;
    var l := LeastFrom(s, a);
    assert l <= m && l in s;
  }

  // The encoder before code point a: the count, what has been handled, the bias, and the text written.
  function Point(delta: int, handled: nat, bias: int, text: string): Encoder
  {
    Encoder(delta, handled, bias, Codes(text))
  }

  // One round of the encoder.
  lemma Turn(s: seq<int>, a: nat, m: int, basic: nat, st: Encoder, next: Encoder)
    requires st.delta >= 0 && st.handled < |s| && LeastFrom(s, a) == m && a <= m <= MAX_INT && next.delta >= 0
    requires var delta := st.delta + (m - a) * (st.handled + 1);
      0 <= delta <= MAX_INT && Pass(s, 0, m, basic, st.handled + 1, st.(delta := delta)) == Ok(next)
    ensures EncodeFrom(s, a, basic, st) == EncodeFrom(s, m + 1, basic, next.(delta := next.delta + 1))
  {
    hide Pass, LeastFrom;
    Guard(m - a, st.delta, st.handled + 1, MAX_INT);
    MulNonNegative(m - a, st.handled + 1);
  }

  // At most two divisions by 35.
  function Scaled(x: nat): (nat, nat)
  {
    if x <= 455 then (x, 0) else if x / 35 <= 455 then (x / 35, 36) else (x / 35 / 35, 72)
  }

  lemma ShrinkIs(x: nat)
    requires x < 455 * 35 * 35
    ensures Shrink(x, 0) == Scaled(x)
  {
    assert Shrink(x / 35 / 35, 72) == (x / 35 / 35, 72);
  }

  lemma AdaptIs(delta: nat, points: int, first: bool, x: nat, bias: int)
    requires points > 0 && delta < 0x8000_0000 && x < 455 * 35 * 35
    requires var e := if first then delta / 700 else delta / 2; x == e + e / points
    requires var (e, a) := Scaled(x); bias == a + 36 * e / (e + 38)
    ensures Adapt(delta, points, first) == bias
  {
    hide Shrink, Scaled;
    Small(delta);
    ShrinkIs(x);
  }

  lemma NextDigit(q: nat, k: int, bias: int, digit: nat, rest: nat)
    requires var t := Threshold(k, bias); t <= digit < 36 && q == digit + rest * (36 - t)
    ensures VarInt(q, k, bias) == [DigitCode(digit)] + VarInt(rest, k + 36, bias)
  {
    var t := Threshold(k, bias);
    MulNonNegative(rest, 36 - t);
    ModUnique(q - t, 36 - t, rest, digit - t);
  }

  lemma LastDigit(q: nat, k: int, bias: int)
    requires q < Threshold(k, bias)
    ensures VarInt(q, k, bias) == [DigitCode(q)]
  {
  }

  // The text back from its encoding.
  lemma Back(e: seq<CodeUnit>, x: seq<int>)
    requires Encode(e) == Ok(x) && |e| < 1928
    ensures Decode(x) == Ok(e)
  {
    hide Encode, Decode;
    CodePointsAre(e);
    CodePointsNotLonger(e);
    ShortStringsFit(CodePoints(e));
    RoundTrip(e);
  }

  // ---------------------------------------------------------------- two characters

  const COUNTRY: seq<int> := [0x4e2d, 0x56fd]

  lemma CountryPass1(t: string)
    ensures Pass(COUNTRY, 0, 0x4e2d, 0, 1, Point(19885, 0, 72, t))
      == Ok(Point(0, 1, 21, t + "fiq"))
  {
    assert VarInt(19885, 36, 72) == Codes("fiq");
    CodesJoin(t, "fiq");
    hide VarInt, Adapt, Codes;
    AdaptIs(19885, 1, true, 56, 21);
  }

  lemma CountryTurn1(t: string)
    ensures EncodeFrom(COUNTRY, 0x80, 0, Point(0, 0, 72, t))
      == EncodeFrom(COUNTRY, 0x4e2e, 0, Point(1, 1, 21, t + "fiq"))
  {
    hide Pass, LeastFrom, EncodeFrom, Codes;
    assert COUNTRY[0] == 0x4e2d;
    LeastIs(COUNTRY, 0x80, 0x4e2d);
    CountryPass1(t);
    Turn(COUNTRY, 0x80, 0x4e2d, 0, Point(0, 0, 72, t), Point(0, 1, 21, t + "fiq"));
  }

  lemma CountryPass2(t: string)
    ensures Pass(COUNTRY, 0, 0x56fd, 0, 2, Point(4511, 1, 21, t))
      == Ok(Point(0, 2, 61, t + "s8s"))
  {
    assert VarInt(4512, 36, 21) == Codes("s8s");
    CodesJoin(t, "s8s");
    hide VarInt, Adapt, Codes;
    AdaptIs(4512, 2, false, 3384, 61);
  }

  lemma CountryTurn2(t: string)
    ensures EncodeFrom(COUNTRY, 0x4e2e, 0, Point(1, 1, 21, t))
      == EncodeFrom(COUNTRY, 0x56fe, 0, Point(1, 2, 61, t + "s8s"))
  {
    hide Pass, LeastFrom, EncodeFrom, Codes;
    assert COUNTRY[1] == 0x56fd;
    LeastIs(COUNTRY, 0x4e2e, 0x56fd);
    CountryPass2(t);
    Turn(COUNTRY, 0x4e2e, 0x56fd, 0, Point(1, 1, 21, t), Point(0, 2, 61, t + "s8s"));
  }

  lemma CountryStart()
    ensures EncodeCodePoints(COUNTRY) == EncodeFrom(COUNTRY, 128, 0, Point(0, 0, 72, ""))
  {
    assert Below(COUNTRY, 128) == [] && Codes("") == [];
    hide EncodeFrom;
  }

  lemma CountryEnds(t: string)
    ensures EncodeFrom(COUNTRY, 0x56fe, 0, Point(1, 2, 61, t)) == Ok(Codes(t))
  {
  }

  lemma CountryEncoded()
    ensures EncodeCodePoints(COUNTRY) == Ok(Codes("fiqs8s"))
  {
    hide EncodeFrom, EncodeCodePoints, Codes, Point, COUNTRY;
    CountryStart();
    CountryTurn1("");
    var t1 := "" + "fiq";
    CountryTurn2(t1);
    var t2 := t1 + "s8s";
    CountryEnds(t2);
    assert t2 == "fiqs8s";
  }

  /** The name of China in Chinese. */
  lemma CountrySample()
    ensures Encode([0x4e2d, 0x56fd])
      == Ok(Codes("fiqs8s"))
    ensures Decode(Codes("fiqs8s"))
      == Ok([0x4e2d, 0x56fd])
  {
    var e: seq<CodeUnit> := [0x4e2d, 0x56fd];
    PlainCodePoints(e, COUNTRY);
    hide EncodeCodePoints, Decode, Codes;
    CountryEncoded();
    Back(e, Codes("fiqs8s"));
  }

  // ---------------------------------------------------------------- nine characters

  const CHINESE: seq<int> := [0x4ed6, 0x4eec, 0x4e3a, 0x4ec0, 0x4e48, 0x4e0d, 0x8bf4, 0x4e2d, 0x6587]

  lemma ChinesePass1(t: string)
    ensures Pass(CHINESE, 0, 0x4e0d, 0, 1, Point(19853, 0, 72, t))
      == Ok(Point(0, 1, 21, t + "ihq"))
  {
    assert VarInt(19853, 36, 72) == Codes("ihq");
    CodesJoin(t, "ihq");
    hide VarInt, Adapt, Codes;
    AdaptIs(19853, 1, true, 56, 21);
  }

  lemma ChineseTurn1(t: string)
    ensures EncodeFrom(CHINESE, 0x80, 0, Point(0, 0, 72, t))
      == EncodeFrom(CHINESE, 0x4e0e, 0, Point(1, 1, 21, t + "ihq"))
  {
    hide Pass, LeastFrom, EncodeFrom, Codes;
    assert CHINESE[5] == 0x4e0d;
    LeastIs(CHINESE, 0x80, 0x4e0d);
    ChinesePass1(t);
    Turn(CHINESE, 0x80, 0x4e0d, 0, Point(0, 0, 72, t), Point(0, 1, 21, t + "ihq"));
  }

  lemma ChinesePass2(t: string)
    ensures Pass(CHINESE, 0, 0x4e2d, 0, 2, Point(63, 1, 21, t))
      == Ok(Point(0, 2, 20, t + "wc"))
  {
    assert VarInt(64, 36, 21) == Codes("wc");
    CodesJoin(t, "wc");
    hide VarInt, Adapt, Codes;
    AdaptIs(64, 2, false, 48, 20);
  }

  lemma ChineseTurn2(t: string)
    ensures EncodeFrom(CHINESE, 0x4e0e, 0, Point(1, 1, 21, t))
      == EncodeFrom(CHINESE, 0x4e2e, 0, Point(1, 2, 20, t + "wc"))
  {
    hide Pass, LeastFrom, EncodeFrom, Codes;
    assert CHINESE[7] == 0x4e2d;
    LeastIs(CHINESE, 0x4e0e, 0x4e2d);
    ChinesePass2(t);
    Turn(CHINESE, 0x4e0e, 0x4e2d, 0, Point(1, 1, 21, t), Point(0, 2, 20, t + "wc"));
  }

  lemma ChinesePass3(t: string)
    ensures Pass(CHINESE, 0, 0x4e3a, 0, 3, Point(37, 2, 20, t))
      == Ok(Point(2, 3, 13, t + "rb"))
  {
    assert VarInt(37, 36, 20) == Codes("rb");
    CodesJoin(t, "rb");
    hide VarInt, Adapt, Codes;
    AdaptIs(37, 3, false, 24, 13);
  }

  lemma ChineseTurn3(t: string)
    ensures EncodeFrom(CHINESE, 0x4e2e, 0, Point(1, 2, 20, t))
      == EncodeFrom(CHINESE, 0x4e3b, 0, Point(3, 3, 13, t + "rb"))
  {
    hide Pass, LeastFrom, EncodeFrom, Codes;
    assert CHINESE[2] == 0x4e3a;
    LeastIs(CHINESE, 0x4e2e, 0x4e3a);
    ChinesePass3(t);
    Turn(CHINESE, 0x4e2e, 0x4e3a, 0, Point(1, 2, 20, t), Point(2, 3, 13, t + "rb"));
  }

  lemma ChinesePass4(t: string)
    ensures Pass(CHINESE, 0, 0x4e48, 0, 4, Point(55, 3, 13, t))
      == Ok(Point(2, 4, 17, t + "4c"))
  {
    assert VarInt(56, 36, 13) == Codes("4c");
    CodesJoin(t, "4c");
    hide VarInt, Adapt, Codes;
    AdaptIs(56, 4, false, 35, 17);
  }

  lemma ChineseTurn4(t: string)
    ensures EncodeFrom(CHINESE, 0x4e3b, 0, Point(3, 3, 13, t))
      == EncodeFrom(CHINESE, 0x4e49, 0, Point(3, 4, 17, t + "4c"))
  {
    hide Pass, LeastFrom, EncodeFrom, Codes;
    assert CHINESE[4] == 0x4e48;
    LeastIs(CHINESE, 0x4e3b, 0x4e48);
    ChinesePass4(t);
    Turn(CHINESE, 0x4e3b, 0x4e48, 0, Point(3, 3, 13, t), Point(2, 4, 17, t + "4c"));
  }

  lemma ChinesePass5(t: string)
    ensures Pass(CHINESE, 0, 0x4ec0, 0, 5, Point(598, 4, 17, t))
      == Ok(Point(3, 5, 32, t + "v8a"))
  {
    assert VarInt(599, 36, 17) == Codes("v8a");
    CodesJoin(t, "v8a");
    hide VarInt, Adapt, Codes;
    AdaptIs(599, 5, false, 358, 32);
  }

  lemma ChineseTurn5(t: string)
    ensures EncodeFrom(CHINESE, 0x4e49, 0, Point(3, 4, 17, t))
      == EncodeFrom(CHINESE, 0x4ec1, 0, Point(4, 5, 32, t + "v8a"))
  {
    hide Pass, LeastFrom, EncodeFrom, Codes;
    assert CHINESE[3] == 0x4ec0;
    LeastIs(CHINESE, 0x4e49, 0x4ec0);
    ChinesePass5(t);
    Turn(CHINESE, 0x4e49, 0x4ec0, 0, Point(3, 4, 17, t), Point(3, 5, 32, t + "v8a"));
  }

  lemma ChinesePass6(t: string)
    ensures Pass(CHINESE, 0, 0x4ed6, 0, 6, Point(130, 5, 32, t))
      == Ok(Point(5, 6, 23, t + "8d"))
  {
    assert VarInt(130, 36, 32) == Codes("8d");
    CodesJoin(t, "8d");
    hide VarInt, Adapt, Codes;
    AdaptIs(130, 6, false, 75, 23);
  }

  lemma ChineseTurn6(t: string)
    ensures EncodeFrom(CHINESE, 0x4ec1, 0, Point(4, 5, 32, t))
      == EncodeFrom(CHINESE, 0x4ed7, 0, Point(6, 6, 23, t + "8d"))
  {
    hide Pass, LeastFrom, EncodeFrom, Codes;
    assert CHINESE[0] == 0x4ed6;
    LeastIs(CHINESE, 0x4ec1, 0x4ed6);
    ChinesePass6(t);
    Turn(CHINESE, 0x4ec1, 0x4ed6, 0, Point(4, 5, 32, t), Point(5, 6, 23, t + "8d"));
  }

  lemma ChinesePass7(t: string)
    ensures Pass(CHINESE, 0, 0x4eec, 0, 7, Point(153, 6, 23, t))
      == Ok(Point(5, 7, 25, t + "qg"))
  {
    assert VarInt(154, 36, 23) == Codes("qg");
    CodesJoin(t, "qg");
    hide VarInt, Adapt, Codes;
    AdaptIs(154, 7, false, 88, 25);
  }

  lemma ChineseTurn7(t: string)
    ensures EncodeFrom(CHINESE, 0x4ed7, 0, Point(6, 6, 23, t))
      == EncodeFrom(CHINESE, 0x4eed, 0, Point(6, 7, 25, t + "qg"))
  {
    hide Pass, LeastFrom, EncodeFrom, Codes;
    assert CHINESE[1] == 0x4eec;
    LeastIs(CHINESE, 0x4ed7, 0x4eec);
    ChinesePass7(t);
    Turn(CHINESE, 0x4ed7, 0x4eec, 0, Point(6, 6, 23, t), Point(5, 7, 25, t + "qg"));
  }

  lemma ChineseDigits8()
    ensures VarInt(46301, 36, 25) == Codes("056p")
  {
  }

  lemma ChinesePass8(t: string)
    ensures Pass(CHINESE, 0, 0x6587, 0, 8, Point(46294, 7, 25, t))
      == Ok(Point(0, 8, 84, t + "056p"))
  {
    ChineseDigits8();
    CodesJoin(t, "056p");
    hide VarInt, Adapt, Codes;
    AdaptIs(46301, 8, false, 26043, 84);
  }

  lemma ChineseTurn8(t: string)
    ensures EncodeFrom(CHINESE, 0x4eed, 0, Point(6, 7, 25, t))
      == EncodeFrom(CHINESE, 0x6588, 0, Point(1, 8, 84, t + "056p"))
  {
    hide Pass, LeastFrom, EncodeFrom, Codes;
    assert CHINESE[8] == 0x6587;
    LeastIs(CHINESE, 0x4eed, 0x6587);
    ChinesePass8(t);
    Turn(CHINESE, 0x4eed, 0x6587, 0, Point(6, 7, 25, t), Point(0, 8, 84, t + "056p"));
  }

  lemma ChineseDigits9()
    ensures VarInt(88531, 36, 84) == Codes("qjye")
  {
    hide VarInt;
    NextDigit(88531, 36, 84, 16, 2529);
    NextDigit(2529, 72, 84, 9, 72);
    NextDigit(72, 108, 84, 24, 4);
    LastDigit(4, 144, 84);
  }

  lemma ChinesePass9(t: string)
    ensures Pass(CHINESE, 0, 0x8bf4, 0, 9, Point(88525, 8, 84, t))
      == Ok(Point(2, 9, 90, t + "qjye"))
  {
    ChineseDigits9();
    CodesJoin(t, "qjye");
    hide VarInt, Adapt, Codes;
    AdaptIs(88531, 9, false, 49183, 90);
  }

  lemma ChineseTurn9(t: string)
    ensures EncodeFrom(CHINESE, 0x6588, 0, Point(1, 8, 84, t))
      == EncodeFrom(CHINESE, 0x8bf5, 0, Point(3, 9, 90, t + "qjye"))
  {
    hide Pass, LeastFrom, EncodeFrom, Codes;
    assert CHINESE[6] == 0x8bf4;
    LeastIs(CHINESE, 0x6588, 0x8bf4);
    ChinesePass9(t);
    Turn(CHINESE, 0x6588, 0x8bf4, 0, Point(1, 8, 84, t), Point(2, 9, 90, t + "qjye"));
  }

  lemma ChineseStart()
    ensures EncodeCodePoints(CHINESE) == EncodeFrom(CHINESE, 128, 0, Point(0, 0, 72, ""))
  {
    assert Below(CHINESE, 128) == [] && Codes("") == [];
    hide EncodeFrom;
  }

  lemma ChineseEnds(t: string)
    ensures EncodeFrom(CHINESE, 0x8bf5, 0, Point(3, 9, 90, t)) == Ok(Codes(t))
  {
  }

  lemma ChineseEncoded()
    ensures EncodeCodePoints(CHINESE) == Ok(Codes("ihqwcrb4cv8a8dqg056pqjye"))
  {
    hide EncodeFrom, EncodeCodePoints, Codes, Point, CHINESE;
    ChineseStart();
    ChineseTurn1("");
    var t1 := "" + "ihq";
    ChineseTurn2(t1);
    var t2 := t1 + "wc";
    ChineseTurn3(t2);
    var t3 := t2 + "rb";
    ChineseTurn4(t3);
    var t4 := t3 + "4c";
    ChineseTurn5(t4);
    var t5 := t4 + "v8a";
    ChineseTurn6(t5);
    var t6 := t5 + "8d";
    ChineseTurn7(t6);
    var t7 := t6 + "qg";
    ChineseTurn8(t7);
    var t8 := t7 + "056p";
    ChineseTurn9(t8);
    var t9 := t8 + "qjye";
    ChineseEnds(t9);
    assert t9 == "ihqwcrb4cv8a8dqg056pqjye";
  }

  /** Sample (B) of section 7.1 of RFC 3492. */
  lemma ChineseSample()
    ensures Encode([0x4ed6, 0x4eec, 0x4e3a, 0x4ec0, 0x4e48, 0x4e0d, 0x8bf4, 0x4e2d, 0x6587])
      == Ok(Codes("ihqwcrb4cv8a8dqg056pqjye"))
    ensures Decode(Codes("ihqwcrb4cv8a8dqg056pqjye"))
      == Ok([0x4ed6, 0x4eec, 0x4e3a, 0x4ec0, 0x4e48, 0x4e0d, 0x8bf4, 0x4e2d, 0x6587])
  {
    var e: seq<CodeUnit> := [0x4ed6, 0x4eec, 0x4e3a, 0x4ec0, 0x4e48, 0x4e0d, 0x8bf4, 0x4e2d, 0x6587];
    PlainCodePoints(e, CHINESE);
    hide EncodeCodePoints, Decode, Codes;
    ChineseEncoded();
    Back(e, Codes("ihqwcrb4cv8a8dqg056pqjye"));
  }

  // ---------------------------------------------------------------- basic characters and others

  const WORD: seq<int> := [0xf1, 0x61, 0x6e, 0x64, 0xfa]

  lemma WordPass1(t: string)
    ensures Pass(WORD, 0, 0xf1, 3, 4, Point(452, 3, 72, t))
      == Ok(Point(3, 4, 0, t + "6ma"))
  {
    assert VarInt(452, 36, 72) == Codes("6ma");
    CodesJoin(t, "6ma");
    hide VarInt, Adapt, Codes;
    AdaptIs(452, 4, true, 0, 0);
  }

  lemma WordTurn1(t: string)
    ensures EncodeFrom(WORD, 0x80, 3, Point(0, 3, 72, t))
      == EncodeFrom(WORD, 0xf2, 3, Point(4, 4, 0, t + "6ma"))
  {
    hide Pass, LeastFrom, EncodeFrom, Codes;
    assert WORD[0] == 0xf1;
    LeastIs(WORD, 0x80, 0xf1);
    WordPass1(t);
    Turn(WORD, 0x80, 0xf1, 3, Point(0, 3, 72, t), Point(3, 4, 0, t + "6ma"));
  }

  lemma WordPass2(t: string)
    ensures Pass(WORD, 0, 0xfa, 3, 5, Point(44, 4, 0, t))
      == Ok(Point(0, 5, 15, t + "2c"))
  {
    assert VarInt(48, 36, 0) == Codes("2c");
    CodesJoin(t, "2c");
    hide VarInt, Adapt, Codes;
    AdaptIs(48, 5, false, 28, 15);
  }

  lemma WordTurn2(t: string)
    ensures EncodeFrom(WORD, 0xf2, 3, Point(4, 4, 0, t))
      == EncodeFrom(WORD, 0xfb, 3, Point(1, 5, 15, t + "2c"))
  {
    hide Pass, LeastFrom, EncodeFrom, Codes;
    assert WORD[4] == 0xfa;
    LeastIs(WORD, 0xf2, 0xfa);
    WordPass2(t);
    Turn(WORD, 0xf2, 0xfa, 3, Point(4, 4, 0, t), Point(0, 5, 15, t + "2c"));
  }

  lemma WordBelow()
    ensures Below(WORD, 128) == [0x61, 0x6e, 0x64]
  {
  }

  lemma WordPrefix()
    ensures Codes("and-") == [0x61, 0x6e, 0x64, 0x2d]
  {
  }

  lemma WordStart()
    ensures EncodeCodePoints(WORD) == EncodeFrom(WORD, 128, 3, Point(0, 3, 72, "and-"))
  {
    hide EncodeFrom, Below, Codes, WORD;
    WordBelow();
    WordPrefix();
    assert [0x61, 0x6e, 0x64] + [DASH] == [0x61, 0x6e, 0x64, 0x2d];
  }

  lemma WordEnds(t: string)
    ensures EncodeFrom(WORD, 0xfb, 3, Point(1, 5, 15, t)) == Ok(Codes(t))
  {
  }

  lemma WordEncoded()
    ensures EncodeCodePoints(WORD) == Ok(Codes("and-6ma2c"))
  {
    hide EncodeFrom, EncodeCodePoints, Codes, Point, WORD;
    WordStart();
    WordTurn1("and-");
    var t1 := "and-" + "6ma";
    WordTurn2(t1);
    var t2 := t1 + "2c";
    WordEnds(t2);
    assert t2 == "and-6ma2c";
  }

  /** A word with basic characters, which come first. */
  lemma WordSample()
    ensures Encode([0xf1, 0x61, 0x6e, 0x64, 0xfa])
      == Ok(Codes("and-6ma2c"))
    ensures Decode(Codes("and-6ma2c"))
      == Ok([0xf1, 0x61, 0x6e, 0x64, 0xfa])
  {
    var e: seq<CodeUnit> := [0xf1, 0x61, 0x6e, 0x64, 0xfa];
    PlainCodePoints(e, WORD);
    hide EncodeCodePoints, Decode, Codes;
    WordEncoded();
    Back(e, Codes("and-6ma2c"));
  }

  // ---------------------------------------------------------------- texts that are no encodings

  lemma DecodedAtEnd(e: seq<int>)
    requires forall i :: 0 <= i < |e| ==> e[i] != DASH
    ensures LastDash(e) == 0
  {
    if e != [] { DecodedAtEnd(e[..|e| - 1]); }
  }

  /** The three errors that a text can have: a character above 127 in front of the last dash, the end of the text within
      a number, and a character that stands for no digit, which the code reports as an overflow.  A slash counts as the
      digit 25, since the code tests digits from above only. */
  lemma DecodeErrors()
    ensures Decode([0xe9, DASH]) == Throw(NotBasic) && Decode(Codes("z")) == Throw(InvalidInput)
    ensures Decode(Codes("{")) == Throw(Overflow) && Decode(Codes("/")) == Throw(InvalidInput)
  {
    assert LastDash([0xe9, DASH]) == 1 && [0xe9, DASH][0] >= 128;
    DecodedAtEnd(Codes("z"));
    DecodedAtEnd(Codes("{"));
    DecodedAtEnd(Codes("/"));
  }
}
