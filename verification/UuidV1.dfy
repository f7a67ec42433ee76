/** The clock of the version-1 UUID generator: 100-nanosecond counts made from millisecond readings, and a 14-bit clock
    sequence that moves on whenever the clock goes back. */
module UuidV1 {
  import opened JsNumber

  // What the generator remembers of the last UUID.
  datatype Clock = Clock(seq14: nat, msecs: int, nsecs: nat)

  // What distinguishes one generated UUID from another, besides the node.
  datatype Stamp = Stamp(seq14: nat, msecs: int, nsecs: nat)

  datatype Result = Generated(stamp: Stamp) | Rejected

  const SEQUENCES: nat := 0x4000

  ghost predicate ValidClock(c: Clock)
  {
    c.seq14 < SEQUENCES && c.nsecs < 10000
  }

  // Whether a reading lies before the last one.
  predicate GoesBack(c: Clock, now: int)
  {
    now < c.msecs
  }

  /** One call without options: a reading before the last one moves the sequence on, a later one restarts the count, and
      the 10001st call within one millisecond is rejected. */
  function Next(c: Clock, now: int): (Result, Clock)
  {
    var back := GoesBack(c, now);
    var seq14 := if back then (c.seq14 + 1) % SEQUENCES else c.seq14;
    var nsecs := if back || now > c.msecs then 0 else c.nsecs + 1;
    if nsecs >= 10000 then (Rejected, c)
    else (Generated(Stamp(seq14, now, nsecs)), Clock(seq14, now, nsecs))
  }

  class Generator {
    // The clock sequence; unset until the first call.
    var clockseq: int
    var seeded: bool
    var lastMSecs: int
    var lastNSecs: int

    ghost predicate Valid()
      reads this
    {
      0 <= clockseq < 0x4000 && 0 <= lastNSecs < 10000
    }

    ghost function State(): Clock
      requires Valid()
      reads this
    {
      Clock(clockseq, lastMSecs, lastNSecs)
    }

    constructor ()
      ensures Valid() && !seeded && lastMSecs == 0 && lastNSecs == 0
    {
      clockseq, seeded, lastMSecs, lastNSecs := 0, false, 0, 0;
    }

    /** uuid.v1() with the current time; `random` are the two random bytes that seed the sequence on the first call. */
    method Generate(now: int, random: (int, int)) returns (r: Result)
      requires Valid() && 0 <= random.0 < 256 && 0 <= random.1 < 256
      modifies this
      ensures Valid() && seeded
      ensures var before := Clock(if old(seeded) then old(clockseq) else (random.0 * 256 + random.1) % 0x4000,
                                  old(lastMSecs), old(lastNSecs));
        (r, State()) == Next(before, now)
    {
      hide And, Or, Shl;
      var l := clockseq;
      if !seeded {
        SeedIs(random.0, random.1);
        l := And(16383, Or(Shl(random.0, 8), random.1));
        clockseq, seeded := l, true;
      }
      var y := lastNSecs + 1;
      var m := (now - lastMSecs) as real + (y - lastNSecs) as real / 10000.0;
      if m < 0.0 {
        SequenceIs(l + 1);
        l := And(l + 1, 16383);
      }
      if m < 0.0 || now > lastMSecs {
        y := 0;
      }
      if y >= 10000 {
        return Rejected;
      }
      lastMSecs, lastNSecs, clockseq := now, y, l;
      r := Generated(Stamp(l, now, y));
    }
  }

  lemma SequenceIs(x: int)
    ensures And(x, 16383) == x % 0x4000 == And(16383, x)
  {
    hide And, Low, High;
    assert Pow2(14) == 0x4000 by { assert Pow2(14) == 64 * Pow2(8); Pow2Values(); }
    MaskIsLow(x, 14, 0x4000);
    LowIs(U32(x), 14, 0x4000);
    AndSwaps(x, 16383);
  }

  lemma AndSwaps(x: int, y: int)
    ensures And(x, y) == And(y, x)
  {
    hide BitAnd;
    AndCommutes(U32(x), U32(y));
  }

  lemma {:induction false} AndCommutes(a: nat, b: nat)
    ensures BitAnd(a, b) == BitAnd(b, a)
  {
    if a > 0 && b > 0 { AndCommutes(a / 2, b / 2); }
  }

  lemma SeedIs(x: int, y: int)
    requires 0 <= x < 256 && 0 <= y < 256
    ensures And(16383, Or(Shl(x, 8), y)) == (x * 256 + y) % 0x4000
  {
    hide And, Or, Shl, BitOr, Pow2, U32;
    assert Pow2(8) == 0x100 by { Pow2Values(); }
    ShlIs(x, 8, 0x100);
    U32Or(Shl(x, 8), y);
    OrIsSum(x, y, 8, 0x100);
    SequenceIs(Or(Shl(x, 8), y));
    Small(x);
    Small(y);
    Small(x * 256);
    LowPattern(Or(Shl(x, 8), y));
  }

  lemma LowPattern(x: int)
    ensures x % 0x4000 == U32(x) % 0x4000
  {
  }

  // ---------------------------------------------------------------- the time field

  // The offset of the UUID epoch, 1582-10-15, in milliseconds.
  const EPOCH: int := 12219292800000

  // A date of the Gregorian calendar.
  datatype Date = Date(year: nat, month: nat, day: nat)

  predicate IsLeap(year: nat)
  {
    year % 4 == 0 && (year % 100 != 0 || year % 400 == 0)
  }

  function MonthLength(year: nat, month: nat): nat
  {
    if month == 2 then (if IsLeap(year) then 29 else 28)
    else if month == 4 || month == 6 || month == 9 || month == 11 then 30 else 31
  }

  predicate ValidDate(d: Date)
  {
    1 <= d.year && 1 <= d.month <= 12 && 1 <= d.day <= MonthLength(d.year, d.month)
  }

  function Tomorrow(d: Date): Date
  {
    if d.day < MonthLength(d.year, d.month) then d.(day := d.day + 1)
    else if d.month < 12 then Date(d.year, d.month + 1, 1)
    else Date(d.year + 1, 1, 1)
  }

  // The days before a year, and before a month of it.
  function DaysBeforeYear(year: nat): int
    requires year >= 1
  {
    var y := year - 1;
    365 * y + y / 4 - y / 100 + y / 400
  }

  function DaysBeforeMonth(year: nat, month: nat): nat
    decreases month
  {
    if month <= 1 then 0 else DaysBeforeMonth(year, month - 1) + MonthLength(year, month - 1)
  }

  function DayNumber(d: Date): int
    requires d.year >= 1
  {
    DaysBeforeYear(d.year) + DaysBeforeMonth(d.year, d.month) + d.day
  }

  lemma YearLength(year: nat)
    requires year >= 1
    ensures DaysBeforeYear(year + 1) == DaysBeforeYear(year) + if IsLeap(year) then 366 else 365
  {
    NextQuotient(year - 1, 4);
    NextQuotient(year - 1, 100);
    NextQuotient(year - 1, 400);
    Multiples(year);
    YearCount(year - 1, (year - 1) / 4, (year - 1) / 100, (year - 1) / 400);
  }

  lemma Multiples(year: nat)
    ensures year % 400 == 0 ==> year % 100 == 0
    ensures year % 100 == 0 ==> year % 4 == 0
  {
    DivMod(year, 400);
    DivMod(year, 100);
    if year % 400 == 0 { ModUnique(year, 100, 4 * (year / 400), 0); }
    if year % 100 == 0 { ModUnique(year, 4, 25 * (year / 100), 0); }
  }

  lemma YearCount(y: nat, a: int, b: int, c: int)
    requires a == y / 4 && b == y / 100 && c == y / 400
    ensures DaysBeforeYear(y + 1) == 365 * y + a - b + c
  {
  }

  lemma NextQuotient(y: nat, m: nat)
    requires m > 1
    ensures (y + 1) / m == y / m + if (y + 1) % m == 0 then 1 else 0
  {
    var q, r := y / m, y % m;
    DivMod(y, m);
    if r + 1 == m {
      Distrib(q, 1, m);
      ModUnique(y + 1, m, q + 1, 0);
    } else {
      ModUnique(y + 1, m, q, r + 1);
    }
  }

  lemma MonthsOfYear(year: nat)
    ensures DaysBeforeMonth(year, 12) + 31 == if IsLeap(year) then 366 else 365
  {
    assert DaysBeforeMonth(year, 4) == DaysBeforeMonth(year, 3) + 31 == 59 + 31 + if IsLeap(year) then 1 else 0;
    assert DaysBeforeMonth(year, 8) == DaysBeforeMonth(year, 4) + 122;
    assert DaysBeforeMonth(year, 12) == DaysBeforeMonth(year, 8) + 122;
  }

  /** Day numbers count the days of the Gregorian calendar. */
  lemma DayNumbersCount(d: Date)
    requires ValidDate(d)
    ensures ValidDate(Tomorrow(d)) && DayNumber(Tomorrow(d)) == DayNumber(d) + 1
  {
    if d.day == MonthLength(d.year, d.month) && d.month == 12 {
      YearLength(d.year);
      MonthsOfYear(d.year);
    }
  }

  /** The epoch is 1582-10-15, counted back from 1970-01-01. */
  lemma EpochIsGregorian()
    ensures ValidDate(Date(1582, 10, 15)) && ValidDate(Date(1970, 1, 1))
    ensures EPOCH == (DayNumber(Date(1970, 1, 1)) - DayNumber(Date(1582, 10, 15))) * 24 * 60 * 60 * 1000
  {
    assert DaysBeforeMonth(1582, 10) == 273;
  }

  // b = (1e4 * (268435455 & p) + y) % 4294967296
  function TimeLow(msecs: int, nsecs: nat): int
  {
    (10000 * And(268435455, msecs + EPOCH) + nsecs) % 0x1_0000_0000
  }

  /** Masking the milliseconds to 28 bits loses nothing: the field is the low word of the full 100-nanosecond count. */
  lemma TimeLowIsLowWord(msecs: int, nsecs: nat)
    ensures TimeLow(msecs, nsecs) == (10000 * (msecs + EPOCH) + nsecs) % 0x1_0000_0000
  {
    hide And;
    var p := msecs + EPOCH;
    Masks(p);
    AndSwaps(268435455, p);
    MaskedCount(p, nsecs);
  }

  // 10000 * 2^28 is a multiple of 2^32.
  lemma MaskedCount(p: int, n: nat)
    ensures (10000 * (U32(p) % 0x1000_0000) + n) % 0x1_0000_0000 == (10000 * p + n) % 0x1_0000_0000
  {
    var q := U32(p) / 0x1000_0000;
    var r := U32(p) % 0x1000_0000;
    var k := p / 0x1_0000_0000;
    assert p == k * 0x1_0000_0000 + q * 0x1000_0000 + r;
    SameLowWord(10000 * r + n, 10000 * k + 625 * q, 10000 * p + n);
  }

  lemma SameLowWord(x: int, k: int, y: int)
    requires y == x + k * 0x1_0000_0000
    ensures x % 0x1_0000_0000 == y % 0x1_0000_0000
  {
  }

  // ---------------------------------------------------------------- runs

  // The results of a sequence of calls, and the clock after them.
  function Run(c: Clock, readings: seq<int>): seq<Result>
    decreases |readings|
  {
    if readings == [] then []
    else var (r, c') := Next(c, readings[0]); [r] + Run(c', readings[1..])
  }

  function After(c: Clock, readings: seq<int>): Clock
    decreases |readings|
  {
    if readings == [] then c else After(Next(c, readings[0]).1, readings[1..])
  }

  function Back(c: Clock, now: int): nat {
    if GoesBack(c, now) then 1 else 0
  }

  // How often the clock goes back in a run.
  function BackMoves(c: Clock, readings: seq<int>): (n: nat)
    ensures n <= |readings|
    decreases |readings|
  {
    if readings == [] then 0
    else Back(c, readings[0]) + BackMoves(Next(c, readings[0]).1, readings[1..])
  }

  lemma {:induction false} RunLength(c: Clock, readings: seq<int>)
    ensures |Run(c, readings)| == |readings|
    decreases |readings|
  {
    if readings != [] { RunLength(Next(c, readings[0]).1, readings[1..]); }
  }

  lemma NextKeepsValid(c: Clock, now: int)
    requires ValidClock(c)
    ensures ValidClock(Next(c, now).1)
    ensures Next(c, now).0 == Rejected ==> Next(c, now).1 == c && !GoesBack(c, now)
    ensures Next(c, now).0.Generated? ==>
      var s := Next(c, now).0.stamp; Next(c, now).1 == Clock(s.seq14, s.msecs, s.nsecs)
  {
  }

  // The 100-nanosecond count of a stamp or clock.
  function Count(msecs: int, nsecs: nat): int
  {
    10000 * msecs + nsecs
  }

  // A stamp lies e back moves after a clock: the sequence says how many modulo 2^14, and without one the count has
  // grown.
  ghost predicate Later(c: Clock, s: Stamp, e: nat)
  {
    && s.seq14 == (c.seq14 + e) % SEQUENCES
    && s.nsecs < 10000
    && (e == 0 ==> Count(c.msecs, c.nsecs) < Count(s.msecs, s.nsecs))
  }

  lemma NextIsLater(c: Clock, now: int)
    requires ValidClock(c) && Next(c, now).0.Generated?
    ensures Later(c, Next(c, now).0.stamp, Back(c, now))
  {
  }

  // What lies after the clock that a call leaves lies after the clock before.
  lemma LaterThrough(c: Clock, now: int, s: Stamp, e: nat)
    requires ValidClock(c) && Later(Next(c, now).1, s, e)
    ensures Later(c, s, Back(c, now) + e)
  {
    SequenceAdds(c.seq14, Back(c, now), e);
    NextKeepsValid(c, now);
  }

  lemma {:induction false} RunIsLater(c: Clock, readings: seq<int>, j: nat)
    requires ValidClock(c) && j < |readings| && |Run(c, readings)| == |readings| && Run(c, readings)[j].Generated?
    ensures BackMoves(c, readings[..j + 1]) <= BackMoves(c, readings)
    ensures Later(c, Run(c, readings)[j].stamp, BackMoves(c, readings[..j + 1]))
    decreases j
  {
    hide Next, GoesBack, Later;
    var now, rest := readings[0], readings[1..];
    var c' := Next(c, now).1;
    NextKeepsValid(c, now);
    RunLength(c', rest);
    assert readings[..j + 1][0] == now && readings[..j + 1][1..] == rest[..j];
    if j > 0 {
      RunIsLater(c', rest, j - 1);
      LaterThrough(c, now, Run(c', rest)[j - 1].stamp, BackMoves(c', rest[..j]));
    } else {
      NextIsLater(c, now);
    }
  }

  // n readings of one time.
  function Steady(now: int, n: nat): (readings: seq<int>)
    ensures |readings| == n
  {
    if n == 0 then [] else [now] + Steady(now, n - 1)
  }

  lemma {:induction false} SteadyGoesOn(c: Clock, n: nat, j: nat)
    requires ValidClock(c) && j < n
    ensures |Run(c, Steady(c.msecs, n))| == n
    ensures Run(c, Steady(c.msecs, n))[j] ==
      if c.nsecs + 1 + j < 10000 then Generated(Stamp(c.seq14, c.msecs, c.nsecs + 1 + j)) else Rejected
    decreases n
  {
    var readings := Steady(c.msecs, n);
    assert readings[0] == c.msecs && readings[1..] == Steady(c.msecs, n - 1);
    RunLength(c, readings);
    if j > 0 { SteadyGoesOn(Next(c, c.msecs).1, n - 1, j - 1); }
  }

  /** Calls within one millisecond that is not that of the last call: the first 10000 count from zero, on one clock
      sequence, which has moved on if the clock went back; all further ones are rejected. */
  lemma CallsInOneMillisecond(c: Clock, now: int, n: nat, j: nat)
    requires ValidClock(c) && now != c.msecs && j < n
    ensures |Run(c, Steady(now, n))| == n
    ensures Run(c, Steady(now, n))[j] ==
      if j < 10000 then Generated(Stamp(if now < c.msecs then (c.seq14 + 1) % SEQUENCES else c.seq14, now, j))
      else Rejected
  {
    var readings := Steady(now, n);
    assert readings[0] == now && readings[1..] == Steady(now, n - 1);
    RunLength(c, readings);
    if j > 0 { SteadyGoesOn(Next(c, now).1, n - 1, j - 1); }
  }

  lemma SequenceAdds(x: nat, a: nat, e: nat)
    ensures ((x + a) % SEQUENCES + e) % SEQUENCES == (x + (a + e)) % SEQUENCES
  {
  }

  lemma SequencesDiffer(x: nat, e: nat)
    requires x < SEQUENCES && 0 < e < SEQUENCES
    ensures (x + e) % SEQUENCES != x
  {
  }

  /** In a run with fewer than 2^14 back moves no two generated stamps are equal. */
  lemma {:induction false} StampsDistinct(c: Clock, readings: seq<int>, i: nat, j: nat)
    requires ValidClock(c) && i < j < |readings| && |Run(c, readings)| == |readings|
    requires BackMoves(c, readings) < SEQUENCES
    requires Run(c, readings)[i].Generated? && Run(c, readings)[j].Generated?
    ensures Run(c, readings)[i] != Run(c, readings)[j]
    decreases i
  {
    var now, rest := readings[0], readings[1..];
    var c' := Next(c, now).1;
    NextKeepsValid(c, now);
    RunLength(c', rest);
    if i > 0 {
      StampsDistinct(c', rest, i - 1, j - 1);
    } else {
      RunIsLater(c', rest, j - 1);
      var e := BackMoves(c', rest[..j]);
      var s := Run(c, readings)[j].stamp;
      if e > 0 { SequencesDiffer(c'.seq14, e); }
      assert Run(c, readings)[0] == Generated(Stamp(c'.seq14, c'.msecs, c'.nsecs));
    }
  }

  // ---------------------------------------------------------------- the bound is exact

  // A clock that jumps back and forth between two readings.
  function Wobble(n: nat): seq<int>
  {
    if n == 0 then [] else [0, 1] + Wobble(n - 1)
  }

  lemma {:induction false} WobbleRun(c: Clock, n: nat)
    requires ValidClock(c) && c.msecs == 1 && c.nsecs == 0 && n > 0
    ensures |Wobble(n)| == 2 * n && |Run(c, Wobble(n))| == 2 * n && BackMoves(c, Wobble(n)) == n
    ensures Run(c, Wobble(n))[2 * n - 1] == Generated(Stamp((c.seq14 + n) % SEQUENCES, 1, 0))
    decreases n
  {
    var w := Wobble(n);
    assert w[0] == 0 && w[1..][0] == 1 && w[1..][1..] == Wobble(n - 1);
    var c1 := Next(c, 0).1;
    var c2 := Next(c1, 1).1;
    assert c2 == Clock((c.seq14 + 1) % SEQUENCES, 1, 0);
    assert Run(c, w) == [Next(c, 0).0] + ([Next(c1, 1).0] + Run(c2, Wobble(n - 1)));
    if n > 1 {
      WobbleRun(c2, n - 1);
      SequenceAdds(c.seq14, 1, n - 1);
    } else {
      assert Run(c2, Wobble(0)) == [];
    }
  }

  /** With 2^14 back moves a stamp does repeat. */
  lemma StampsRepeat(c: Clock)
    requires ValidClock(c) && c.msecs < 1
    ensures var readings := [1] + Wobble(SEQUENCES);
      && BackMoves(c, readings) == SEQUENCES
      && |Run(c, readings)| == |readings|
      && Run(c, readings)[0].Generated? && Run(c, readings)[0] == Run(c, readings)[|readings| - 1]
  {
    hide Wobble;
    var w := Wobble(SEQUENCES);
    var c' := Next(c, 1).1;
    assert c' == Clock(c.seq14, 1, 0);
    WobbleRun(c', SEQUENCES);
    assert ([1] + w)[1..] == w;
  }
}
