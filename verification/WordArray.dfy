/** The big-endian byte buffer of the MD5 library: an array of 32-bit words and a count of significant bytes. */
module WordArrays {
  import opened JsNumber

  type byte = b: int | 0 <= b < 256

  // ---------------------------------------------------------------- bytes of words

  // Byte r of a word, counted from the most significant one.
  function Lane(w: int, r: nat): byte
    requires r < 4
  {
    Pow2Values();
    Low(High(U32(w), 24 - 8 * r), 8)
  }

  // w >>> 24 - 8 * r & 255
  lemma LaneIsShift(w: int, r: nat)
    requires r < 4
    ensures And(Shr(w, 24 - 8 * r), 255) == Lane(w, r)
  {
    hide High, Low, And;
    var x := Shr(w, 24 - 8 * r);
    assert Pow2(8) == 0x100 by { Pow2Values(); }
    HighSmaller(U32(w), 24 - 8 * r);
    MaskIsLow(x, 8, 0x100);
  }

  // Byte j of a word sequence; JavaScript reads a missing word as zero.
  function ByteAt(words: seq<int>, j: nat): byte
  {
    if j / 4 < |words| then Lane(words[j / 4], j % 4) else 0
  }

  // ---------------------------------------------------------------- bit operations lane by lane

  lemma {:induction false} OrHigh(a: nat, b: nat, k: nat)
    ensures High(BitOr(a, b), k) == BitOr(High(a, k), High(b, k))
  {
    if k > 0 {
      OrStep(a, b);
      OrHigh(a / 2, b / 2, k - 1);
    }
  }

  lemma {:induction false} OrLow(a: nat, b: nat, k: nat)
    ensures Low(BitOr(a, b), k) == BitOr(Low(a, k), Low(b, k))
  {
    hide BitOr;
    if k > 0 {
      OrStep(a, b);
      OrLow(a / 2, b / 2, k - 1);
      OrStep(Low(a, k), Low(b, k));
    } else {
      OrZero(0);
    }
  }

  lemma {:induction false} AndHigh(a: nat, b: nat, k: nat)
    ensures High(BitAnd(a, b), k) == BitAnd(High(a, k), High(b, k))
  {
    if k > 0 {
      AndStep(a, b);
      AndHigh(a / 2, b / 2, k - 1);
    }
  }

  lemma {:induction false} AndLow(a: nat, b: nat, k: nat)
    ensures Low(BitAnd(a, b), k) == BitAnd(Low(a, k), Low(b, k))
  {
    hide BitAnd;
    if k > 0 {
      AndStep(a, b);
      AndLow(a / 2, b / 2, k - 1);
      AndStep(Low(a, k), Low(b, k));
    } else {
      AndStep(0, 0);
    }
  }

  lemma LaneOr(w: int, v: int, r: nat)
    requires r < 4
    ensures Lane(Or(w, v), r) == BitOr(Lane(w, r), Lane(v, r))
  {
    hide Or, BitOr, U32, High, Low;
    U32Or(w, v);
    OrHigh(U32(w), U32(v), 24 - 8 * r);
    OrLow(High(U32(w), 24 - 8 * r), High(U32(v), 24 - 8 * r), 8);
  }

  lemma LaneAnd(w: int, v: int, r: nat)
    requires r < 4
    ensures Lane(And(w, v), r) == BitAnd(Lane(w, r), Lane(v, r))
  {
    hide And, BitAnd, U32, High, Low;
    U32And(w, v);
    AndHigh(U32(w), U32(v), 24 - 8 * r);
    AndLow(High(U32(w), 24 - 8 * r), High(U32(v), 24 - 8 * r), 8);
  }

  // The word with the given bytes.
  function Word(b0: byte, b1: byte, b2: byte, b3: byte): uint32
  {
    b0 as int * 0x100_0000 + b1 as int * 0x1_0000 + b2 as int * 0x100 + b3 as int
  }

  lemma LanesOfWord(b0: byte, b1: byte, b2: byte, b3: byte)
    ensures var w := Word(b0, b1, b2, b3);
      Lane(w, 0) == b0 && Lane(w, 1) == b1 && Lane(w, 2) == b2 && Lane(w, 3) == b3
  {
    hide High, Low;
    var w := Word(b0, b1, b2, b3);
    assert U32(w) == w;
    LaneIsQuotient(w, 0, 0x100_0000, b0, b1 as int * 0x1_0000 + b2 as int * 0x100 + b3 as int);
    LaneIsQuotient(w, 1, 0x1_0000, b0 as int * 0x100 + b1 as int, b2 as int * 0x100 + b3 as int);
    LaneIsQuotient(w, 2, 0x100, b0 as int * 0x1_0000 + b1 as int * 0x100 + b2 as int, b3 as int);
    LaneIsQuotient(w, 3, 1, w, 0);
  }

  lemma LaneIsQuotient(w: uint32, r: nat, p: nat, q: nat, d: nat)
    requires r < 4 && p == (if r == 0 then 0x100_0000 else if r == 1 then 0x1_0000 else if r == 2 then 0x100 else 1)
    requires w == q * p + d && d < p
    ensures Lane(w, r) == q % 256
  {
    assert U32(w) == w;
    assert Pow2(24 - 8 * r) == p && Pow2(8) == 256 by { Pow2Values(); }
    LowIs(w, 24 - 8 * r, p);
    ModUnique(w, p, q, d);
    LowIs(q, 8, 256);
  }

  lemma WordOfLanes(w: int)
    ensures U32(w) == Word(Lane(w, 0), Lane(w, 1), Lane(w, 2), Lane(w, 3))
  {
    hide High, Low, U32, Word, Lane;
    var b0, b1, b2, b3 := BytesOfWord(U32(w));
    LanesOfWord(b0, b1, b2, b3);
    LaneOfWord(w);
  }

  lemma LaneOfWord(w: int)
    ensures forall r: nat :: r < 4 ==> Lane(U32(w), r) == Lane(w, r)
  {
    hide High, Low;
    assert U32(U32(w)) == U32(w);
  }

  lemma BytesOfWord(u: uint32) returns (b0: byte, b1: byte, b2: byte, b3: byte)
    ensures u == Word(b0, b1, b2, b3)
  {
    var x3: int := u as int / 256;
    var x2 := x3 / 256;
    b0, b1, b2, b3 := x2 / 256, x2 % 256, x3 % 256, u as int % 256;
  }

  // The word with byte b at place p and zeros elsewhere.
  function OneByte(b: byte, p: nat): uint32
  {
    if p == 0 then Word(b, 0, 0, 0) else if p == 1 then Word(0, b, 0, 0)
    else if p == 2 then Word(0, 0, b, 0) else Word(0, 0, 0, b)
  }

  lemma LanesOfPlaced(b: byte, p: nat, r: nat)
    requires p < 4 && r < 4
    ensures Lane(Shl(b, 24 - 8 * p), r) == if r == p then b else 0
  {
    hide High, Low, Shl, Pow2, Lane, Word, U32;
    PlacedIs(b, p);
    OneByteSmall(b, p);
    LaneOfPattern(Shl(b, 24 - 8 * p), OneByte(b, p), r);
    LanesOfWord(b, 0, 0, 0);
    LanesOfWord(0, b, 0, 0);
    LanesOfWord(0, 0, b, 0);
    LanesOfWord(0, 0, 0, b);
  }

  lemma OneByteSmall(b: byte, p: nat)
    ensures U32(OneByte(b, p)) == OneByte(b, p)
  {
  }

  lemma Pattern(x: int)
    requires 0 <= x < 0x1_0000_0000
    ensures U32(x) == x
  {
  }

  lemma PlacedIs(b: byte, p: nat)
    requires p < 4
    ensures U32(Shl(b, 24 - 8 * p)) == OneByte(b, p)
  {
    hide Shl, Pow2, U32;
    Small(b as int);
    Pattern(b as int * 0x100_0000);
    Pattern(b as int * 0x1_0000);
    Pattern(b as int * 0x100);
    if p == 0 {
      assert Pow2(24) == 0x100_0000 by { Pow2Values(); }
      ShlIs(b, 24, 0x100_0000);
    } else if p == 1 {
      assert Pow2(16) == 0x1_0000 by { Pow2Values(); }
      ShlIs(b, 16, 0x1_0000);
    } else if p == 2 {
      assert Pow2(8) == 0x100 by { Pow2Values(); }
      ShlIs(b, 8, 0x100);
    } else {
      assert Pow2(0) == 1 by { Pow2Values(); }
      ShlIs(b, 0, 1);
    }
  }

  // Lanes depend on the 32-bit pattern only.
  lemma LaneOfPattern(w: int, v: int, r: nat)
    requires r < 4 && U32(w) == U32(v)
    ensures Lane(w, r) == Lane(v, r)
  {
  }

  lemma AndAll(a: nat, k: nat)
    requires a < Pow2(k)
    ensures BitAnd(a, Pow2(k) - 1) == a
  {
    AndOnes(a, k);
    LowAll(a, k);
  }

  lemma ByteAnd(b: byte)
    ensures BitAnd(b, 255) == b && BitAnd(b, 0) == 0
  {
    assert Pow2(8) == 256 by { Pow2Values(); }
    AndAll(b, 8);
  }

  // The word with ones in its first r bytes, or everywhere when r is zero.
  function Mask(r: nat): uint32
  {
    if r == 0 then 0xffff_ffff else if r == 1 then 0xff00_0000 else if r == 2 then 0xffff_0000 else 0xffff_ff00
  }

  // 4294967295 << 32 - 8 * r
  lemma MaskLanes(r: nat, x: nat)
    requires r < 4 && x < 4
    ensures Lane(Shl(0xffff_ffff, 32 - 8 * r), x) == if r == 0 || x < r then 255 else 0
  {
    hide High, Low, Shl, Pow2, Lane;
    MaskIs(r);
    LaneOfPattern(Shl(0xffff_ffff, 32 - 8 * r), Mask(r), x);
    LanesOfWord(255, 255, 255, 255);
    LanesOfWord(255, 0, 0, 0);
    LanesOfWord(255, 255, 0, 0);
    LanesOfWord(255, 255, 255, 0);
  }

  lemma MaskIs(r: nat)
    requires r < 4
    ensures U32(Shl(0xffff_ffff, 32 - 8 * r)) == Mask(r) == U32(Mask(r))
  {
    hide Pow2, Shl, U32;
    MaskNumbers();
    if r == 0 {
      assert Pow2(0) == 1 by { Pow2Values(); }
      ShlIs(0xffff_ffff, 0, 1);
      ShlCount(0xffff_ffff);
    } else if r == 1 {
      assert Pow2(24) == 0x100_0000 by { Pow2Values(); }
      ShlIs(0xffff_ffff, 24, 0x100_0000);
    } else if r == 2 {
      assert Pow2(16) == 0x1_0000 by { Pow2Values(); }
      ShlIs(0xffff_ffff, 16, 0x1_0000);
    } else {
      assert Pow2(8) == 0x100 by { Pow2Values(); }
      ShlIs(0xffff_ffff, 8, 0x100);
    }
  }

  lemma MaskNumbers()
    ensures U32(0xffff_ffff) == 0xffff_ffff == U32(0xffff_ffff * 1)
    ensures U32(0xffff_ffff * 0x100_0000) == 0xff00_0000 == U32(0xff00_0000)
    ensures U32(0xffff_ffff * 0x1_0000) == 0xffff_0000 == U32(0xffff_0000)
    ensures U32(0xffff_ffff * 0x100) == 0xffff_ff00 == U32(0xffff_ff00)
  {
  }

  // Shift counts are taken modulo 32.
  lemma ShlCount(x: int)
    ensures Shl(x, 32) == Shl(x, 0)
  {
  }

  // ---------------------------------------------------------------- words of an array

  // words[i] = v; JavaScript fills a gap with holes, which read as zero.
  function Put(words: seq<int>, i: nat, v: int): (r: seq<int>)
    ensures |r| == if i < |words| then |words| else i + 1
    ensures r[i] == v
    ensures forall x :: 0 <= x < |r| && x != i ==> r[x] == if x < |words| then words[x] else 0
  {
    if i < |words| then words[i := v] else words + seq(i - |words|, _ => 0) + [v]
  }

  function WordAt(words: seq<int>, i: nat): int
  {
    if i < |words| then words[i] else 0
  }

  // words.length = n
  function Resize(words: seq<int>, n: nat): (r: seq<int>)
    ensures |r| == n && forall x :: 0 <= x < n ==> r[x] == WordAt(words, x)
  {
    if n <= |words| then words[..n] else words + seq(n - |words|, _ => 0)
  }

  // words[i >>> 2] |= b << 24 - 8 * (i % 4)
  function OrByte(words: seq<int>, i: nat, b: byte): seq<int>
  {
    Put(words, i / 4, Or(WordAt(words, i / 4), Shl(b, 24 - 8 * (i % 4))))
  }

  lemma ZeroLanes(r: nat)
    requires r < 4
    ensures Lane(0, r) == 0
  {
    hide Lane, Word;
    LanesOfWord(0, 0, 0, 0);
    ZeroWord();
  }

  lemma ZeroWord()
    ensures Word(0, 0, 0, 0) == 0
  {
  }

  // It stores the byte where there was a zero byte and changes no other.
  lemma OrByteStores(words: seq<int>, i: nat, b: byte)
    requires ByteAt(words, i) == 0
    ensures forall j: nat :: ByteAt(OrByte(words, i, b), j) == if j == i then b else ByteAt(words, j)
  {
    hide Lane, Or, Shl, Put, BitOr;
    var words' := OrByte(words, i, b);
    var w, v := WordAt(words, i / 4), Shl(b, 24 - 8 * (i % 4));
    forall j: nat ensures ByteAt(words', j) == if j == i then b else ByteAt(words, j) {
      ZeroLanes(j % 4);
      if j / 4 == i / 4 {
        LaneOr(w, v, j % 4);
        LanesOfPlaced(b, i % 4, j % 4);
        OrZero(Lane(w, j % 4));
        OrZero(b);
      } else if j / 4 < |words'| {
        assert words'[j / 4] == if j / 4 < |words| then words[j / 4] else 0;
      }
    }
  }

  lemma OrByteLength(words: seq<int>, i: nat, b: byte)
    ensures |OrByte(words, i, b)| == if i / 4 < |words| then |words| else i / 4 + 1
  {
  }

  // words[j >>> 2] >>> 24 - 8 * (j % 4) & 255
  lemma ReadByte(words: seq<int>, j: nat)
    ensures And(Shr(WordAt(words, j / 4), 24 - 8 * (j % 4)), 255) == ByteAt(words, j)
  {
    hide Lane, And, Shr;
    LaneIsShift(WordAt(words, j / 4), j % 4);
    ZeroLanes(j % 4);
  }

  /** The words hold exactly `sig` bytes: no word is missing or left over, and the bytes that fill up the last word are
      zero. */
  ghost predicate Clean(words: seq<int>, sig: nat)
  {
    && |words| == (sig + 3) / 4
    && forall j: nat :: sig <= j ==> ByteAt(words, j) == 0
  }

  lemma BytesOfAppended(a: seq<int>, w: seq<int>)
    ensures forall x: nat :: ByteAt(a + w, x) == if x < 4 * |a| then ByteAt(a, x) else ByteAt(w, x - 4 * |a|)
  {
    hide Lane;
  }

  lemma BytesOfResized(w: seq<int>, n: nat)
    ensures forall x: nat :: ByteAt(Resize(w, n), x) == if x < 4 * n then ByteAt(w, x) else 0
  {
    hide Lane;
    forall r: nat | r < 4 ensures Lane(0, r) == 0 { ZeroLanes(r); }
  }

  // The first sig bytes of a word sequence.
  function BytesOf(words: seq<int>, sig: nat): (b: seq<byte>)
    ensures |b| == sig && forall j :: 0 <= j < sig ==> b[j] == ByteAt(words, j)
  {
    seq(sig, j requires 0 <= j => ByteAt(words, j))
  }

  // r holds the sig bytes of a and behind them the n bytes of w.
  ghost predicate Appends(a: seq<int>, sig: nat, w: seq<int>, n: nat, r: seq<int>)
  {
    && (forall x :: 0 <= x < sig ==> ByteAt(r, x) == ByteAt(a, x))
    && (forall x :: 0 <= x < n ==> ByteAt(r, sig + x) == ByteAt(w, x))
    && (Clean(w, n) || sig % 4 != 0 ==> Clean(r, sig + n))
  }

  lemma AppendsBytes(a: seq<int>, sig: nat, w: seq<int>, n: nat, r: seq<int>)
    requires Appends(a, sig, w, n, r)
    ensures BytesOf(r, sig + n) == BytesOf(a, sig) + BytesOf(w, n)
  {
    hide ByteAt;
    var p, q := BytesOf(r, sig + n), BytesOf(a, sig) + BytesOf(w, n);
    forall x | 0 <= x < sig + n ensures p[x] == q[x] {
      if x >= sig { assert ByteAt(r, sig + (x - sig)) == ByteAt(w, x - sig); }
    }
  }

  // Appending to whole words, with or without the words past the end: the bytes line up, and clean stays clean.
  lemma WordsAppended(a: seq<int>, w: seq<int>, r: seq<int>, sig: nat, n: nat)
    requires Clean(a, sig) && sig % 4 == 0
    requires r == a + w || r == a + Resize(w, (n + 3) / 4)
    ensures Appends(a, sig, w, n, r)
  {
    hide ByteAt;
    BytesOfAppended(a, w);
    BytesOfResized(w, (n + 3) / 4);
    BytesOfAppended(a, Resize(w, (n + 3) / 4));
    if Clean(w, n) {
      assert Resize(w, (n + 3) / 4) == w;
      forall j: nat | sig + n <= j ensures ByteAt(r, j) == 0 {
        assert ByteAt(w, j - sig) == 0;
      }
    }
  }

  lemma AppendsClean(a: seq<int>, sig: nat, w: seq<int>, n: nat, r: seq<int>)
    requires Appends(a, sig, w, n, r)
    ensures Clean(w, n) || sig % 4 != 0 ==> Clean(r, sig + n)
  {
  }

  // The words that an array with these words appends to an empty one.
  function Copied(words: seq<int>, sig: nat): seq<int>
  {
    if 65535 < |words| then Resize(words, (sig + 3) / 4) else words
  }

  // CryptoJS.lib.WordArray
  class WordArray {
    var words: seq<int>
    var sigBytes: nat

    // The significant bytes; everything else in the words is left over from earlier use.
    function Bytes(): seq<byte>
      reads this
    {
      BytesOf(words, sigBytes)
    }

    ghost predicate Clamped()
      reads this
    {
      Clean(words, sigBytes)
    }

    constructor (words: seq<int>, sigBytes: nat)
      ensures this.words == words && this.sigBytes == sigBytes
    {
      this.words, this.sigBytes := words, sigBytes;
    }

    method Clamp()
      modifies this
      ensures sigBytes == old(sigBytes) && Clamped()
      ensures Bytes() == old(Bytes())
    {
      hide Lane, And, Shl, Put, Resize, BitAnd;
      ghost var before := words;
      var i, r := sigBytes / 4, sigBytes % 4;
      words := Put(words, i, And(WordAt(words, i), Shl(0xffff_ffff, 32 - 8 * r)));
      ghost var masked := words;
      words := Resize(words, (sigBytes + 3) / 4);
      forall j: nat ensures ByteAt(words, j) == if j < sigBytes then ByteAt(before, j) else 0 {
        ZeroLanes(j % 4);
        if j / 4 < |words| {
          assert words[j / 4] == masked[j / 4];
          if j / 4 == i {
            LaneAnd(WordAt(before, i), Shl(0xffff_ffff, 32 - 8 * r), j % 4);
            MaskLanes(r, j % 4);
            ByteAnd(Lane(WordAt(before, i), j % 4));
          } else {
            assert masked[j / 4] == WordAt(before, j / 4);
          }
        }
      }
    }

    /** Appends the bytes of another array or of this one.  On the two word-by-word paths the other array's left-over
        bytes come along behind the significant ones, so the result is clamped when that array is. */
    method Concat(that: WordArray)
      requires sigBytes + that.sigBytes < 0x1_0000_0000
      modifies this
      ensures sigBytes == old(sigBytes) + old(that.sigBytes)
      ensures Bytes() == old(Bytes()) + old(that.Bytes())
      ensures old(that.Clamped()) || that == this || old(sigBytes) % 4 != 0 ==> Clamped()
      ensures that != this && old(sigBytes) == 0 ==> words == Copied(that.words, that.sigBytes)
    {
      hide ByteAt, BytesOf, Clean, Appends, Resize;
      Clamp();
      ghost var before, added, sig := words, that.words, sigBytes;
      if sigBytes % 4 != 0 {
        AppendBytes(that);
      } else if 65535 < |that.words| {
        AppendWords(that);
        WordsAppended(before, added, words, sigBytes, that.sigBytes);
      } else {
        AppendAll(that);
        WordsAppended(before, added, words, sigBytes, that.sigBytes);
      }
      AppendsBytes(before, sig, added, that.sigBytes, words);
      AppendsClean(before, sig, added, that.sigBytes, words);
      NoWords(before, sig);
      sigBytes := sigBytes + that.sigBytes;
    }

    // The path for an array that ends inside a word.
    method AppendBytes(that: WordArray)
      requires Clamped()
      modifies this`words
      ensures Appends(old(words), sigBytes, old(that.words), that.sigBytes, words)
    {
      hide ByteAt, And, Shr, OrByte;
      ghost var before, added := words, that.words;
      for g := 0 to that.sigBytes
        invariant |words| == (sigBytes + g + 3) / 4
        invariant that != this ==> that.words == added
        invariant forall x: nat :: (
          ByteAt(words, x) == if x < sigBytes then ByteAt(before, x)
                              else if x < sigBytes + g then ByteAt(added, x - sigBytes) else 0)
      {
        ReadByte(that.words, g);
        var b: byte := And(Shr(WordAt(that.words, g / 4), 24 - 8 * (g % 4)), 255);
        assert b == ByteAt(added, g);
        OrByteStores(words, sigBytes + g, b);
        OrByteLength(words, sigBytes + g, b);
        words := OrByte(words, sigBytes + g, b);
      }
    }

    // The path for more than 65535 words.
    method AppendWords(that: WordArray)
      requires Clamped() && sigBytes % 4 == 0
      modifies this`words
      ensures words == old(words) + Resize(old(that.words), (that.sigBytes + 3) / 4)
    {
      hide Put;
      ghost var added := that.words;
      var g := 0;
      ghost var k := 0;
      while g < that.sigBytes
        invariant g == 4 * k && k <= (that.sigBytes + 3) / 4
        invariant that != this ==> that.words == added
        invariant words == old(words) + Resize(added, k)
      {
        assert WordAt(that.words, k) == WordAt(added, k);
        words := Put(words, (sigBytes + g) / 4, WordAt(that.words, g / 4));
        assert (sigBytes + g) / 4 == |old(words)| + k && g / 4 == k;
        assert Resize(added, k + 1) == Resize(added, k) + [WordAt(added, k)];
        g, k := g + 4, k + 1;
      }
    }

    // h.push.apply(h, a)
    method AppendAll(that: WordArray)
      modifies this`words
      ensures words == old(words) + old(that.words)
    {
      words := words + that.words;
    }
  }

  lemma NoWords(words: seq<int>, sig: nat)
    requires Clean(words, sig)
    ensures sig == 0 ==> words == [] && forall w: seq<int> :: words + w == w
  {
  }
}
