/** Removal of "." and ".." segments from a path, in the bundled URI library.

    The library consumes its input with regular expressions.  `Body` is one round of its loop; `Remove` is the outcome
    of the whole loop, which may also throw or never end. */
module DotSegments {

  datatype Option<T> = None | Some(value: T)

  datatype Outcome = Done(path: string) | Throws | Diverges

  // ---------------------------------------------------------------- the regular expressions

  // The dot of a regular expression matches none of these (nor the newline, which the pattern below adds back).
  predicate IsBreak(c: char)
  {
    c == '\r' || c == '\U{2028}' || c == '\U{2029}'
  }

  predicate NoBreaks(s: string)
  {
    forall i :: 0 <= i < |s| ==> !IsBreak(s[i])
  }

  // Length of the match of /^\.\.?\//, or 0.
  function LeadingDots(e: string): (n: nat)
    ensures n <= |e|
  {
    if "./" <= e then 2 else if "../" <= e then 3 else 0
  }

  // Whether /^\/\.(\/|$)/ matches.
  predicate HereSegment(e: string)
  {
    "/./" <= e || e == "/."
  }

  // Whether /^\/\.\.(\/|$)/ matches.
  predicate UpSegment(e: string)
  {
    "/../" <= e || e == "/.."
  }

  // Replacing a match of n + 1 or n characters, the last of them a slash or the end, by one slash.
  function AfterSlash(e: string, n: nat): string
    requires |e| >= n
  {
    "/" + if |e| == n then "" else e[n + 1..]
  }

  // The position of the first slash from i on, or the end.
  function SlashFrom(e: string, i: nat): (j: nat)
    requires i <= |e|
    ensures i <= j <= |e|
    ensures j < |e| ==> e[j] == '/'
    ensures forall x :: i <= x < j ==> e[x] != '/'
    decreases |e| - i
  {
    if i == |e| || e[i] == '/' then i else SlashFrom(e, i + 1)
  }

  /** Length of the match of /^\/?(?:.|\n)*?(?=\/|$)/.  When a break stands in the way the engine backtracks: behind a
      leading slash it settles for the empty match in front of that slash; otherwise there is no match. */
  function Segment(e: string): Option<nat>
    requires e != ""
  {
    var start := if e[0] == '/' then 1 else 0;
    var j := SlashFrom(e, start);
    if NoBreaks(e[start..j]) then Some(j) else if start == 1 then Some(0) else None
  }

  // ---------------------------------------------------------------- the loop

  datatype State = State(input: string, output: seq<string>)

  function Pop(r: seq<string>): seq<string>
  {
    if r == [] then [] else r[..|r| - 1]
  }

  // One round; None is the thrown error.
  function Body(s: State): Option<State>
    requires s.input != ""
  {
    var e, r := s.input, s.output;
    if LeadingDots(e) > 0 then Some(State(e[LeadingDots(e)..], r))
    else if HereSegment(e) then Some(State(AfterSlash(e, 2), r))
    else if UpSegment(e) then Some(State(AfterSlash(e, 3), Pop(r)))
    else if e == "." || e == ".." then Some(State("", r))
    else
      match Segment(e)
      case None => None
      case Some(n) => Some(State(e[n..], r + [e[..n]]))
  }

  function Flat(r: seq<string>): string
  {
    if r == [] then "" else r[0] + Flat(r[1..])
  }

  // The outcome of the loop.  A round that consumes nothing is repeated for ever.
  function Loop(s: State): Outcome
    decreases |s.input|
  {
    if s.input == "" then Done(Flat(s.output))
    else
      match Body(s)
      case None => Throws
      case Some(t) => if |t.input| >= |s.input| then Diverges else Loop(t)
  }

  function Remove(path: string): Outcome
  {
    Loop(State(path, []))
  }

  method RemoveDotSegments(path: string) returns (r: Outcome)
    ensures r == Remove(path)
  {
    var e, output: seq<string> := path, [];
    while e != ""
      invariant Loop(State(e, output)) == Remove(path)
      decreases |e|
    {
      if LeadingDots(e) > 0 {
        e := e[LeadingDots(e)..];
      } else if HereSegment(e) {
        e := AfterSlash(e, 2);
      } else if UpSegment(e) {
        e := AfterSlash(e, 3);
        output := Pop(output);
      } else if e == "." || e == ".." {
        e := "";
      } else {
        var t := Segment(e);
        if t.None? {
          return Throws;
        }
        if t.value == 0 {
          // The code would go round for ever.
          return Diverges;
        }
        output := output + [e[..t.value]];
        e := e[t.value..];
      }
    }
    r := Done(Flat(output));
  }

  // ---------------------------------------------------------------- rounds

  // The state after n rounds; None once an error was thrown.  A finished loop stays as it is.
  function Rounds(s: State, n: nat): Option<State>
    decreases n
  {
    if n == 0 || s.input == "" then Some(s)
    else
      match Body(s)
      case None => None
      case Some(t) => Rounds(t, n - 1)
  }

  // The input never grows, and a round that does not shorten it does not change it.
  lemma BodyShrinks(s: State)
    requires s.input != "" && Body(s).Some?
    ensures |Body(s).value.input| <= |s.input|
    ensures |Body(s).value.input| == |s.input| ==> Body(s).value.input == s.input
  {
  }

  lemma BodyIgnoresOutput(s: State, t: State)
    requires s.input == t.input != ""
    ensures Body(s).Some? <==> Body(t).Some?
    ensures Body(s).Some? ==> Body(s).value.input == Body(t).value.input
  {
  }

  /** `Loop` is what the rounds lead to: a finished state, an error, or rounds without end. */
  lemma {:induction false} LoopIsRounds(s: State)
    ensures Loop(s).Done? ==> exists n: nat ::
      Rounds(s, n).Some? && Rounds(s, n).value.input == "" && Loop(s).path == Flat(Rounds(s, n).value.output)
    ensures Loop(s).Throws? ==> exists n: nat :: Rounds(s, n).None?
    ensures Loop(s).Diverges? ==> forall n: nat :: Rounds(s, n).Some? && Rounds(s, n).value.input != ""
    decreases |s.input|
  {
    if s.input == "" {
      assert Rounds(s, 0) == Some(s);
    } else if Body(s).None? {
      assert Rounds(s, 1).None?;
    } else {
      var t := Body(s).value;
      BodyShrinks(s);
      if |t.input| < |s.input| {
        LoopIsRounds(t);
        if Loop(t).Done? {
          var n: nat :| Rounds(t, n).Some? && Rounds(t, n).value.input == ""
            && Loop(t).path == Flat(Rounds(t, n).value.output);
          assert Rounds(s, n + 1) == Rounds(t, n);
        } else if Loop(t).Throws? {
          var n: nat :| Rounds(t, n).None?;
          assert Rounds(s, n + 1) == Rounds(t, n);
        } else {
          forall n: nat ensures Rounds(s, n).Some? && Rounds(s, n).value.input != "" {
            if n > 0 { assert Rounds(s, n) == Rounds(t, n - 1); }
          }
        }
      } else {
        forall n: nat ensures Rounds(s, n).Some? && Rounds(s, n).value.input != "" { Spins(s, n); }
      }
    }
  }

  lemma {:induction false} Spins(s: State, n: nat)
    requires s.input != "" && Body(s).Some? && Body(s).value.input == s.input
    ensures Rounds(s, n).Some? && Rounds(s, n).value.input == s.input
    decreases n
  {
    if n > 0 {
      var t := Body(s).value;
      BodyIgnoresOutput(s, t);
      Spins(t, n - 1);
    }
  }

  // ---------------------------------------------------------------- segment by segment

  // A path cut in front of every slash.
  function Cut(p: string): (c: seq<string>)
    decreases |p|
  {
    if p == "" then []
    else
      var j := SlashFrom(p, if p[0] == '/' then 1 else 0);
      [p[..j]] + Cut(p[j..])
  }

  // What remains of pieces that all begin with a slash, on top of a stack.
  function ResolveAbsolute(c: seq<string>, r: seq<string>): seq<string>
    decreases |c|
  {
    if c == [] then r
    else if c[0] == "/." then (if |c| == 1 then r + ["/"] else ResolveAbsolute(c[1..], r))
    else if c[0] == "/.." then (if |c| == 1 then Pop(r) + ["/"] else ResolveAbsolute(c[1..], Pop(r)))
    else ResolveAbsolute(c[1..], r + [c[0]])
  }

  // Leading dot segments of a relative path disappear together with the slash behind them.
  function Resolve(c: seq<string>): seq<string>
    decreases |c|, if c == [] then 0 else |c[0]|
  {
    if c == [] then []
    else if c[0] == "." || c[0] == ".." then
      if |c| == 1 then []
      else if |c[1]| <= 1 then Resolve(c[2..])
      else Resolve([c[1][1..]] + c[2..])
    else if |c[0]| > 0 && c[0][0] != '/' then ResolveAbsolute(c[1..], [c[0]])
    else ResolveAbsolute(c, [])
  }

  ghost predicate Slashed(x: string)
  {
    |x| > 0 && x[0] == '/' && forall i :: 1 <= i < |x| ==> x[i] != '/'
  }

  ghost predicate Plain(x: string)
  {
    |x| > 0 && forall i :: 0 <= i < |x| ==> x[i] != '/'
  }

  // The pieces of some path: each begins with a slash, but the first need not.
  ghost predicate Pieces(c: seq<string>)
  {
    forall i :: 0 <= i < |c| ==> Slashed(c[i]) || (i == 0 && Plain(c[0]))
  }

  predicate IsDots(x: string)
  {
    x == "." || x == ".." || x == "/." || x == "/.."
  }

  lemma {:induction false} FlatAppend(r: seq<string>, q: seq<string>)
    ensures Flat(r + q) == Flat(r) + Flat(q)
  {
    if r == [] {
      assert r + q == q;
    } else {
      assert (r + q)[1..] == r[1..] + q;
      FlatAppend(r[1..], q);
    }
  }

  lemma FlatOne(x: string)
    ensures Flat([x]) == x
  {
    assert [x][1..] == [];
    assert Flat([]) == "";
  }

  lemma FlatPush(r: seq<string>, x: string)
    ensures Flat(r + [x]) == Flat(r) + x
  {
    FlatAppend(r, [x]);
    FlatOne(x);
  }

  // Cutting loses nothing and yields pieces.
  lemma {:induction false} CutIsPieces(p: string)
    ensures Flat(Cut(p)) == p && Pieces(Cut(p))
    ensures p != "" && p[0] == '/' ==> Slashed(Cut(p)[0])
    decreases |p|
  {
    if p != "" {
      var j := SlashFrom(p, if p[0] == '/' then 1 else 0);
      CutIsPieces(p[j..]);
      hide SlashFrom, Flat;
      FlatCons(p[..j], Cut(p[j..]));
      assert p == p[..j] + p[j..];
    } else {
      assert Cut(p) == [];
    }
  }

  lemma FlatCons(x: string, r: seq<string>)
    ensures Flat([x] + r) == x + Flat(r)
  {
    assert ([x] + r)[1..] == r;
  }

  // The first round on a cut path.
  lemma FirstPiece(c: seq<string>)
    requires Pieces(c) && c != []
    ensures Flat(c) == c[0] + Flat(c[1..]) && Flat(c) != ""
    ensures Pieces(c[1..]) && (|c| > 1 ==> Slashed(c[1]))
    ensures Flat(c[1..]) == "" <==> |c| == 1
    ensures |c| > 1 ==> Flat(c[1..])[0] == '/'
    ensures SlashFrom(Flat(c), if c[0][0] == '/' then 1 else 0) == |c[0]|
  {
    var e, rest := Flat(c), Flat(c[1..]);
    if |c| > 1 {
      assert Flat(c[1..]) == c[1] + Flat(c[1..][1..]);
    }
    SlashAfter(c[0], rest, if c[0][0] == '/' then 1 else 0);
  }

  lemma {:induction false} SlashAfter(x: string, rest: string, i: nat)
    requires i <= |x| && (forall k :: i <= k < |x| ==> x[k] != '/') && (rest == "" || rest[0] == '/')
    ensures SlashFrom(x + rest, i) == |x|
    decreases |x| - i
  {
    if i < |x| { SlashAfter(x, rest, i + 1); }
  }

  lemma {:induction false} NoBreaksInPiece(c: seq<string>)
    requires c != [] && NoBreaks(Flat(c))
    ensures NoBreaks(c[0]) && NoBreaks(Flat(c[1..]))
  {
    var e, x, rest := Flat(c), c[0], Flat(c[1..]);
    assert e == x + rest;
    forall i | 0 <= i < |x| ensures !IsBreak(x[i]) { assert e[i] == x[i]; }
    forall i | 0 <= i < |rest| ensures !IsBreak(rest[i]) { assert e[|x| + i] == rest[i]; }
  }

  // How the regular expressions see a piece and what follows it.
  lemma DotTests(x: string, rest: string)
    requires Slashed(x) && (rest == "" || rest[0] == '/')
    ensures HereSegment(x + rest) <==> x == "/."
    ensures UpSegment(x + rest) <==> x == "/.."
    ensures LeadingDots(x + rest) == 0 && x + rest != "." && x + rest != ".."
  {
    var e := x + rest;
    assert e[..|x|] == x;
    if HereSegment(e) {
      assert e[1] == '.' && (|e| > 2 ==> e[2] == '/');
      assert |x| == 2 && x == [x[0], x[1]];
    }
    if UpSegment(e) {
      assert e[1] == '.' && e[2] == '.' && (|e| > 3 ==> e[3] == '/');
      assert |x| == 3 && x == [x[0], x[1], x[2]];
    }
    if x == "/." {
      if rest == "" { assert e == x; } else { assert e[..3] == "/./"; }
    }
    if x == "/.." {
      if rest == "" { assert e == x; } else { assert e[..4] == "/../"; }
    }
    assert e[0] == '/';
  }

  lemma AfterDots(x: string, rest: string)
    requires (x == "/." || x == "/..") && (rest == "" || rest[0] == '/')
    ensures AfterSlash(x + rest, |x|) == if rest == "" then "/" else rest
  {
    if rest != "" { assert rest == "/" + rest[1..] && (x + rest)[|x| + 1..] == rest[1..]; }
  }

  // What one round does with a piece that begins with a slash.
  lemma SlashedRound(c: seq<string>, r: seq<string>)
    requires Pieces(c) && c != [] && Slashed(c[0]) && NoBreaks(Flat(c))
    ensures var t := Body(State(Flat(c), r));
      t == Some(if c[0] == "/." then State(if |c| == 1 then "/" else Flat(c[1..]), r)
                else if c[0] == "/.." then State(if |c| == 1 then "/" else Flat(c[1..]), Pop(r))
                else State(Flat(c[1..]), r + [c[0]]))
  {
    hide Flat, HereSegment, UpSegment, LeadingDots, AfterSlash, Pop;
    FirstPiece(c);
    NoBreaksInPiece(c);
    var e, x, rest := Flat(c), c[0], Flat(c[1..]);
    DotTests(x, rest);
    if x == "/." || x == "/.." {
      AfterDots(x, rest);
    } else {
      assert e[..|x|] == x && e[|x|..] == rest;
      assert e[1..|x|] == x[1..];
    }
  }

  lemma {:induction false} LoopAbsolute(c: seq<string>, r: seq<string>)
    requires Pieces(c) && (c != [] ==> Slashed(c[0])) && NoBreaks(Flat(c))
    ensures Loop(State(Flat(c), r)) == Done(Flat(ResolveAbsolute(c, r)))
    decreases |c|
  {
    if c == [] {
    } else {
      SlashedRound(c, r);
      FirstPiece(c);
      NoBreaksInPiece(c);
      if c[0] == "/." || c[0] == "/.." {
        var r' := if c[0] == "/." then r else Pop(r);
        if |c| == 1 {
          FlatOne("/");
          SlashedRound(["/"], r');
          assert Loop(State("/", r')) == Done(Flat(r' + ["/"]));
        } else {
          LoopAbsolute(c[1..], r');
        }
      } else {
        LoopAbsolute(c[1..], r + [c[0]]);
      }
    }
  }

  // What one round does with the first piece of a relative path.
  lemma PlainRound(c: seq<string>, r: seq<string>)
    requires Pieces(c) && c != [] && Plain(c[0]) && NoBreaks(Flat(c))
    ensures var t := Body(State(Flat(c), r));
      t == Some(if c[0] == "." || c[0] == ".." then State(if |c| == 1 then "" else Flat(c[1..])[1..], r)
                else State(Flat(c[1..]), r + [c[0]]))
  {
    hide Flat;
    FirstPiece(c);
    NoBreaksInPiece(c);
    var e, x, rest := Flat(c), c[0], Flat(c[1..]);
    PlainTests(x, rest);
    assert e[..|x|] == x && e[|x|..] == rest;
    if x == "." || x == ".." {
      if rest != "" { assert e[|x| + 1..] == rest[1..]; }
    } else {
      assert e[0..|x|] == x;
    }
  }

  lemma PlainTests(x: string, rest: string)
    requires Plain(x) && (rest == "" || rest[0] == '/')
    ensures !HereSegment(x + rest) && !UpSegment(x + rest)
    ensures LeadingDots(x + rest) == if rest != "" && (x == "." || x == "..") then |x| + 1 else 0
    ensures x + rest == "." || x + rest == ".." <==> rest == "" && (x == "." || x == "..")
  {
    var e := x + rest;
    assert e[0] == x[0];
    if "./" <= e { assert e[0] == '.' && e[1] == '/'; assert |x| == 1; }
    if "../" <= e { assert e[0] == '.' && e[1] == '.' && e[2] == '/'; assert |x| == 2; }
    if x == "." && rest != "" { assert e[..2] == "./"; }
    if x == ".." && rest != "" { assert e[..3] == "../" && e[1] != '/'; }
    if rest == "" { assert e == x; }
  }

  // Dropping a leading dot segment and the slash behind it.
  function AfterLead(c: seq<string>): seq<string>
    requires |c| > 1
  {
    if |c[1]| <= 1 then c[2..] else [c[1][1..]] + c[2..]
  }

  lemma AfterLeadIsPieces(c: seq<string>)
    requires Pieces(c) && |c| > 1
    ensures Pieces(AfterLead(c)) && Flat(AfterLead(c)) == Flat(c[1..])[1..]
  {
    var x, rest := c[1], c[2..];
    assert c[1..][1..] == rest && Flat(c[1..]) == x + Flat(rest);
    if |x| <= 1 {
      assert Flat(c[1..])[1..] == Flat(rest);
    } else {
      assert ([x[1..]] + rest)[1..] == rest;
      assert Flat(AfterLead(c)) == x[1..] + Flat(rest);
    }
  }

  lemma {:induction false} LoopResolves(c: seq<string>)
    requires Pieces(c) && NoBreaks(Flat(c))
    ensures Loop(State(Flat(c), [])) == Done(Flat(Resolve(c)))
    decreases |c|, if c == [] then 0 else |c[0]|
  {
    if c == [] {
    } else if Slashed(c[0]) {
      LoopAbsolute(c, []);
    } else {
      PlainRound(c, []);
      FirstPiece(c);
      NoBreaksInPiece(c);
      if c[0] == "." || c[0] == ".." {
        if |c| > 1 {
          AfterLeadIsPieces(c);
          var rest := Flat(c[1..]);
          forall i | 0 <= i < |rest| - 1 ensures !IsBreak(rest[1..][i]) { assert rest[1..][i] == rest[i + 1]; }
          LoopResolves(AfterLead(c));
        }
      } else {
        assert [] + [c[0]] == [c[0]];
        LoopAbsolute(c[1..], [c[0]]);
      }
    }
  }

  // ---------------------------------------------------------------- when the loop ends

  lemma {:induction false} BreaksStay(s: State)
    requires !NoBreaks(s.input)
    ensures !Loop(s).Done?
    decreases |s.input|
  {
    var e := s.input;
    var i :| 0 <= i < |e| && IsBreak(e[i]);
    if Body(s).Some? {
      var t := Body(s).value;
      if |t.input| < |e| {
        BreakMoves(s, i);
        BreaksStay(t);
      }
    }
  }

  // A round never consumes a break.
  lemma BreakMoves(s: State, i: nat)
    requires i < |s.input| && IsBreak(s.input[i]) && Body(s).Some?
    ensures !NoBreaks(Body(s).value.input)
  {
    var e, t := s.input, Body(s).value.input;
    var d := |e| - |t|;
    if LeadingDots(e) > 0 || HereSegment(e) || UpSegment(e) {
      DotsBeforeBreak(e, i);
      assert t[i - d] == e[i];
    } else if e == "." || e == ".." {
      assert false;
    } else {
      var n := Segment(e).value;
      if i < n { BreakInSegment(e, i, n); }
      assert t[i - n] == e[i];
    }
  }

  lemma DotsBeforeBreak(e: string, i: nat)
    requires i < |e| && IsBreak(e[i])
    ensures LeadingDots(e) > 0 ==> i >= LeadingDots(e)
    ensures HereSegment(e) ==> i >= 3 && "/./" <= e
    ensures UpSegment(e) ==> i >= 4 && "/../" <= e
  {
  }

  lemma BreakInSegment(e: string, i: nat, n: nat)
    requires e != "" && Segment(e) == Some(n) && i < |e| && IsBreak(e[i])
    ensures i >= n
  {
    hide SlashFrom;
  }

  /** The library's loop ends normally exactly when the path holds no carriage return, line separator or paragraph
      separator; then the result is what resolving the path piece by piece gives. */
  lemma RemoveResolves(path: string)
    ensures Remove(path).Done? <==> NoBreaks(path)
    ensures NoBreaks(path) ==> Remove(path) == Done(Flat(Resolve(Cut(path))))
  {
    if NoBreaks(path) {
      CutIsPieces(path);
      LoopResolves(Cut(path));
    } else {
      BreaksStay(State(path, []));
    }
  }

  // What the rounds for leading dots leave.
  function StripDots(e: string): string
    decreases |e|
  {
    if LeadingDots(e) > 0 then StripDots(e[LeadingDots(e)..]) else e
  }

  // A break before the first slash of what they leave.
  predicate BreaksFirst(path: string)
  {
    var e := StripDots(path);
    !NoBreaks(e[..SlashFrom(e, 0)])
  }

  // Once a slash is in front, one stays in front until the end, and there is always a match.
  lemma {:induction false} SlashNeverThrows(s: State)
    requires s.input == "" || s.input[0] == '/'
    ensures !Loop(s).Throws?
    decreases |s.input|
  {
    hide NoBreaks;
    if s.input != "" && Body(s).Some? && |Body(s).value.input| < |s.input| {
      SlashNeverThrows(Body(s).value);
    }
  }

  lemma {:induction false} LoopThrows(path: string, r: seq<string>)
    ensures Loop(State(path, r)).Throws? <==> BreaksFirst(path)
    decreases |path|
  {
    hide NoBreaks;
    if path == "" || path[0] == '/' {
      SlashNeverThrows(State(path, r));
      assert path[..0] == "" && NoBreaks("") by { EmptyHasNoBreaks(); }
    } else if LeadingDots(path) > 0 {
      LoopThrows(path[LeadingDots(path)..], r);
    } else {
      var j := SlashFrom(path, 0);
      if NoBreaks(path[..j]) {
        assert path[0..j] == path[..j];
        if path != "." && path != ".." {
          SlashNeverThrows(State(path[j..], r + [path[..j]]));
        }
      } else {
        assert path[0..j] == path[..j];
        NotDots(path, j);
      }
    }
  }

  lemma EmptyHasNoBreaks()
    ensures NoBreaks("")
  {
  }

  lemma NotDots(path: string, j: nat)
    requires j <= |path| && !NoBreaks(path[..j])
    ensures path != "." && path != ".."
  {
  }

  /** Which of the other paths throw and which run for ever: it throws if and only if a break comes before the first
      slash behind the leading dot segments. */
  lemma RemoveFails(path: string)
    ensures Remove(path).Throws? <==> BreaksFirst(path)
    ensures Remove(path).Diverges? <==> !NoBreaks(path) && !BreaksFirst(path)
  {
    hide NoBreaks, BreaksFirst;
    LoopThrows(path, []);
    RemoveResolves(path);
  }

  // A break directly behind a slash: the loop goes round for ever.
  lemma EndlessPath()
    ensures Remove("/\r") == Diverges && Remove("\r") == Throws
  {
    assert SlashFrom("/\r", 1) == 2;
    assert IsBreak("/\r"[1..2][0]);
    assert SlashFrom("\r", 0) == 1;
    assert IsBreak("\r"[0..1][0]);
  }

  // The other two line breaks that the expression leaves out, U+2028 and U+2029.
  lemma EndlessSeparators()
    ensures Remove("/\U{2028}") == Remove("/\U{2029}") == Diverges
  {
    assert SlashFrom("/\U{2028}", 1) == SlashFrom("/\U{2029}", 1) == 2;
    assert IsBreak("/\U{2028}"[1..2][0]) && IsBreak("/\U{2029}"[1..2][0]);
  }

  // A line feed is the one line break that the expression takes.
  lemma LineFeedStays()
    ensures Remove("/\n") == Done("/\n")
  {
    assert SlashFrom("/\n", 1) == 2;
    assert NoBreaks("/\n"[1..2]) && "/\n"[2..] == "" && "/\n"[..2] == "/\n";
    FlatOne("/\n");
    assert [] + ["/\n"] == ["/\n"];
  }

  // ---------------------------------------------------------------- what the result looks like

  ghost predicate NoDots(c: seq<string>)
  {
    Pieces(c) && forall i :: 0 <= i < |c| ==> !IsDots(c[i])
  }

  function Size(c: seq<string>): nat
  {
    |Flat(c)|
  }

  lemma PopKeeps(r: seq<string>)
    requires NoDots(r)
    ensures NoDots(Pop(r)) && Size(Pop(r)) <= Size(r)
  {
    if r != [] {
      assert r == Pop(r) + [r[|r| - 1]];
      FlatPush(Pop(r), r[|r| - 1]);
    }
  }

  lemma PushKeeps(r: seq<string>, x: string)
    requires NoDots(r) && Slashed(x) && !IsDots(x)
    ensures NoDots(r + [x]) && Size(r + [x]) == Size(r) + |x|
  {
    FlatPush(r, x);
  }

  lemma {:induction false} AbsoluteHasNoDots(c: seq<string>, r: seq<string>)
    requires Pieces(c) && (c != [] ==> Slashed(c[0])) && NoDots(r)
    ensures NoDots(ResolveAbsolute(c, r)) && Size(ResolveAbsolute(c, r)) <= Size(r) + Size(c)
    decreases |c|
  {
    hide Flat, Size;
    if c == [] {
    } else {
      SizeOf(c);
      PopKeeps(r);
      if c[0] == "/." || c[0] == "/.." {
        var r' := if c[0] == "/." then r else Pop(r);
        if |c| == 1 { PushKeeps(r', "/"); }
        else { AbsoluteHasNoDots(c[1..], r'); }
      } else {
        PushKeeps(r, c[0]);
        AbsoluteHasNoDots(c[1..], r + [c[0]]);
      }
    }
  }

  lemma SizeOf(c: seq<string>)
    requires c != []
    ensures Size(c) == |c[0]| + Size(c[1..]) && Size([]) == 0
  {
  }

  lemma {:induction false} ResolvedHasNoDots(c: seq<string>)
    requires Pieces(c)
    ensures NoDots(Resolve(c)) && Size(Resolve(c)) <= Size(c)
    decreases |c|, if c == [] then 0 else |c[0]|
  {
    if c == [] {
    } else {
      SizeOf(c);
      if Slashed(c[0]) {
        AbsoluteHasNoDots(c, []);
      } else if c[0] == "." || c[0] == ".." {
        if |c| > 1 {
          AfterLeadIsPieces(c);
          ResolvedHasNoDots(AfterLead(c));
        }
      } else {
        assert Size([c[0]]) == |c[0]| by { FlatOne(c[0]); }
        AbsoluteHasNoDots(c[1..], [c[0]]);
      }
    }
  }

  // Pieces without dots are left alone.
  lemma {:induction false} AbsoluteKeeps(c: seq<string>, r: seq<string>)
    requires Pieces(c) && (c != [] ==> Slashed(c[0])) && forall i :: 0 <= i < |c| ==> !IsDots(c[i])
    ensures ResolveAbsolute(c, r) == r + c
    decreases |c|
  {
    if c != [] {
      AbsoluteKeeps(c[1..], r + [c[0]]);
      assert r + c == r + [c[0]] + c[1..];
    } else {
      assert r + c == r;
    }
  }

  lemma ResolveKeeps(c: seq<string>)
    requires NoDots(c)
    ensures Resolve(c) == c
  {
    if c != [] {
      assert !IsDots(c[0]);
      if Slashed(c[0]) {
        AbsoluteKeeps(c, []);
        assert [] + c == c;
      } else {
        AbsoluteKeeps(c[1..], [c[0]]);
        assert c == [c[0]] + c[1..];
      }
    }
  }

  // Cutting the text of pieces gives the pieces back.
  lemma {:induction false} CutOfFlat(c: seq<string>)
    requires Pieces(c)
    ensures Cut(Flat(c)) == c
    decreases |c|
  {
    if c != [] {
      FirstPiece(c);
      CutOfFlat(c[1..]);
      assert Flat(c)[..|c[0]|] == c[0] && Flat(c)[|c[0]|..] == Flat(c[1..]);
      assert c == [c[0]] + c[1..];
    }
  }

  /** The result has no "." or ".." segment and is not longer than the path. */
  lemma ResultHasNoDots(path: string)
    requires NoBreaks(path)
    ensures Remove(path).Done? && NoDots(Cut(Remove(path).path)) && |Remove(path).path| <= |path|
  {
    RemoveResolves(path);
    CutIsPieces(path);
    ResolvedHasNoDots(Cut(path));
    CutOfFlat(Resolve(Cut(path)));
  }

  /** The paths that removal leaves unchanged are exactly the break-free ones without dot segments. */
  lemma FixedPaths(path: string)
    ensures Remove(path) == Done(path) <==> NoBreaks(path) && NoDots(Cut(path))
  {
    RemoveResolves(path);
    CutIsPieces(path);
    if NoBreaks(path) {
      if NoDots(Cut(path)) { ResolveKeeps(Cut(path)); }
      ResultHasNoDots(path);
    }
  }

  /** Removing a second time changes nothing, and never fails. */
  lemma RemoveIdempotent(path: string)
    requires NoBreaks(path)
    ensures Remove(path).Done? && Remove(Remove(path).path) == Remove(path)
  {
    ResultHasNoDots(path);
    RemoveResolves(path);
    ResultHasNoBreaks(path);
    FixedPaths(Remove(path).path);
  }

  lemma ResultHasNoBreaks(path: string)
    requires NoBreaks(path) && Remove(path).Done?
    ensures NoBreaks(Remove(path).path)
  {
    assert Flat([]) == "";
    LoopAddsNoBreaks(State(path, []));
  }

  lemma {:induction false} LoopAddsNoBreaks(s: State)
    requires NoBreaks(s.input) && NoBreaks(Flat(s.output)) && Loop(s).Done?
    ensures NoBreaks(Loop(s).path)
    decreases |s.input|
  {
    if s.input != "" {
      var t := Body(s).value;
      RoundAddsNoBreaks(s);
      LoopAddsNoBreaks(t);
    }
  }

  lemma RoundAddsNoBreaks(s: State)
    requires s.input != "" && NoBreaks(s.input) && NoBreaks(Flat(s.output)) && Body(s).Some?
    ensures NoBreaks(Body(s).value.input) && NoBreaks(Flat(Body(s).value.output))
  {
    hide SlashFrom, Flat, NoBreaks, IsBreak;
    var e, r := s.input, s.output;
    PopAddsNoBreaks(r);
    SliceHasNoBreaks(e);
    assert e[|e|..] == "" && "/" + e[|e|..] == "/" + "";
    match Segment(e)
    case None =>
    case Some(n) =>
      FlatPush(r, e[..n]);
      JoinHasNoBreaks(Flat(r), e[..n]);
  }

  lemma PopAddsNoBreaks(r: seq<string>)
    requires NoBreaks(Flat(r))
    ensures NoBreaks(Flat(Pop(r)))
  {
    hide Flat;
    if r != [] {
      assert r == Pop(r) + [r[|r| - 1]];
      FlatPush(Pop(r), r[|r| - 1]);
      assert Flat(Pop(r)) == Flat(r)[..|Flat(Pop(r))|];
      SliceHasNoBreaks(Flat(r));
    }
  }

  lemma SliceHasNoBreaks(e: string)
    requires NoBreaks(e)
    ensures forall i: nat :: i <= |e| ==> NoBreaks(e[i..]) && NoBreaks(e[..i]) && NoBreaks("/" + e[i..])
  {
    hide IsBreak;
    assert !IsBreak('/') by { BreaksAre('/'); }
  }

  lemma BreaksAre(c: char)
    ensures IsBreak(c) <==> c in ['\r', '\U{2028}', '\U{2029}']
  {
  }

  lemma JoinHasNoBreaks(x: string, y: string)
    requires NoBreaks(x) && NoBreaks(y)
    ensures NoBreaks(x + y)
  {
  }

  // ---------------------------------------------------------------- what a dot segment does to the path around it

  // The stack after pieces that more follow.
  function Stack(c: seq<string>, r: seq<string>): seq<string>
  {
    if c == [] then r
    else Stack(c[1..], if c[0] == "/." then r else if c[0] == "/.." then Pop(r) else r + [c[0]])
  }

  lemma {:induction false} ResolveInParts(a: seq<string>, b: seq<string>, r: seq<string>)
    requires b != []
    ensures ResolveAbsolute(a + b, r) == ResolveAbsolute(b, Stack(a, r))
    decreases |a|
  {
    if a == [] {
      assert a + b == b;
    } else {
      assert (a + b)[1..] == a[1..] + b;
      ResolveInParts(a[1..], b, if a[0] == "/." then r else if a[0] == "/.." then Pop(r) else r + [a[0]]);
    }
  }

  lemma {:induction false} StackInParts(a: seq<string>, b: seq<string>, r: seq<string>)
    ensures Stack(a + b, r) == Stack(b, Stack(a, r))
    decreases |a|
  {
    if a == [] {
      assert a + b == b;
    } else {
      assert (a + b)[1..] == a[1..] + b;
      StackInParts(a[1..], b, if a[0] == "/." then r else if a[0] == "/.." then Pop(r) else r + [a[0]]);
    }
  }

  // A pop undoes the push before it.
  lemma PushAndPop(x: string, r: seq<string>)
    requires !IsDots(x)
    ensures Stack([x, "/.."], r) == r
  {
    assert [x, "/.."][1..] == ["/.."] && ["/.."][1..] == [];
    assert Stack(["/.."], r + [x]) == Stack([], Pop(r + [x]));
    assert (r + [x])[..|r|] == r;
  }

  lemma HereIsNothing(r: seq<string>)
    ensures Stack(["/."], r) == r
  {
    assert ["/."][1..] == [];
  }

  // The rest of a path behind a dot segment: at the end a slash stays.
  function Behind(q: string): string
  {
    if q == "" then "/" else q
  }

  // A dot segment at the end resolves as the same in front of a slash.
  lemma LastDots(u: string, r: seq<string>)
    requires u == "/." || u == "/.."
    ensures ResolveAbsolute([u], r) == ResolveAbsolute(["/"], Stack([u], r))
  {
    assert [u][1..] == [] && ["/"][1..] == [];
  }

  // Pieces d that leave every stack as it is, and end in a dot segment, can be left out.
  lemma LeftOut(a: seq<string>, d: seq<string>, b: seq<string>, r: seq<string>)
    requires d != [] && (d[|d| - 1] == "/." || d[|d| - 1] == "/..")
    requires Stack(d, Stack(a, r)) == Stack(a, r)
    ensures ResolveAbsolute(a + (d + b), r) == ResolveAbsolute(a + (if b == [] then ["/"] else b), r)
  {
    var n := |d| - 1;
    var u, t := d[n], Stack(a, r);
    ResolveInParts(a, d + b, r);
    if b == [] {
      assert d + b == d == d[..n] + [u];
      ResolveInParts(d[..n], [u], t);
      LastDots(u, Stack(d[..n], t));
      StackInParts(d[..n], [u], t);
      ResolveInParts(a, ["/"], r);
    } else {
      ResolveInParts(d, b, t);
      ResolveInParts(a, b, r);
    }
  }

  // The path does not begin with a dot segment that is stripped.
  ghost predicate Firm(p: string)
  {
    p == "" || p[0] == '/' || !IsDots(Cut(p)[0])
  }

  // The stack that the first piece leaves, and the pieces behind it.
  function Base(c: seq<string>): seq<string>
  {
    if c != [] && |c[0]| > 0 && c[0][0] != '/' then [c[0]] else []
  }

  lemma ResolveIs(c: seq<string>)
    requires Pieces(c) && (Base(c) != [] ==> !IsDots(c[0]))
    ensures Resolve(c) == ResolveAbsolute(c[|Base(c)|..], Base(c))
  {
    if c != [] && Base(c) == [] {
      assert Slashed(c[0]) && c[0] != "." && c[0] != "..";
    }
  }

  lemma FirmResolves(c: seq<string>, r: seq<string>, a: seq<string>)
    requires Pieces(c) && NoBreaks(Flat(c)) && r == Base(c) && c == r + a && (r != [] ==> !IsDots(c[0]))
    ensures Remove(Flat(c)) == Done(Flat(ResolveAbsolute(a, r)))
  {
    assert c[|r|..] == a;
    hide ResolveAbsolute, Resolve, Loop, Base, IsDots, Pieces;
    ResolveIs(c);
    LoopResolves(c);
  }

  lemma JoinPieces(c: seq<string>, d: seq<string>)
    requires Pieces(c) && Pieces(d) && (d != [] ==> Slashed(d[0]))
    ensures Pieces(c + d) && Flat(c + d) == Flat(c) + Flat(d)
  {
    FlatAppend(c, d);
  }

  lemma CutSlashed(q: string)
    requires q == "" || q[0] == '/'
    ensures Pieces(Cut(q)) && Flat(Cut(q)) == q && (Cut(q) == [] <==> q == "")
    ensures q != "" ==> Slashed(Cut(q)[0])
  {
    CutIsPieces(q);
  }

  lemma FirmCut(p: string)
    requires Firm(p)
    ensures Pieces(Cut(p)) && Flat(Cut(p)) == p
    ensures Base(Cut(p)) <= Cut(p) && (Base(Cut(p)) != [] ==> !IsDots(Cut(p)[0]))
    ensures Cut(p) != [] && Base(Cut(p)) == [] ==> Slashed(Cut(p)[0])
  {
    CutIsPieces(p);
  }

  // More pieces behind do not change what the first one does.
  lemma BaseStays(c: seq<string>, d: seq<string>)
    requires Pieces(c + d) && (d != [] ==> Slashed(d[0]))
    ensures Base(c + d) == Base(c)
  {
    if c == [] { assert c + d == d; }
  }

  // A path, cut, with slashed pieces behind it.
  lemma PathAndPieces(c: seq<string>, e: seq<string>, r: seq<string>, a: seq<string>)
    requires Pieces(c) && Pieces(e) && e != [] && Slashed(e[0]) && NoBreaks(Flat(c) + Flat(e))
    requires r == Base(c) && c == r + a && (r != [] ==> !IsDots(c[0]))
    ensures Remove(Flat(c) + Flat(e)) == Done(Flat(ResolveAbsolute(a + e, r)))
  {
    assert c + e == r + (a + e);
    assert r != [] ==> (c + e)[0] == c[0];
    hide NoBreaks, Flat, IsDots, ResolveAbsolute, Base, Slashed, Pieces, Remove;
    JoinPieces(c, e);
    BaseStays(c, e);
    FirmResolves(c + e, r, a + e);
  }

  // The same with the dot segments d between, and without.
  lemma PiecesVanish(c: seq<string>, d: seq<string>, b: seq<string>, b': seq<string>, r: seq<string>, a: seq<string>)
    requires Pieces(c) && r == Base(c) && c == r + a && (r != [] ==> !IsDots(c[0]))
    requires Pieces(d + b) && d != [] && Slashed((d + b)[0]) && (d[|d| - 1] == "/." || d[|d| - 1] == "/..")
    requires b' == (if b == [] then ["/"] else b) && Pieces(b') && Slashed(b'[0])
    requires NoBreaks(Flat(c) + Flat(d + b)) && NoBreaks(Flat(c) + Flat(b'))
    requires Stack(d, Stack(a, r)) == Stack(a, r)
    ensures Remove(Flat(c) + Flat(d + b)) == Remove(Flat(c) + Flat(b'))
  {
    hide *;
    PathAndPieces(c, d + b, r, a);
    PathAndPieces(c, b', r, a);
    LeftOut(a, d, b, r);
  }

  lemma SplitAt(c: seq<string>, r: seq<string>)
    requires r <= c
    ensures c == r + c[|r|..]
  {
  }

  lemma FirstOf(d: seq<string>, b: seq<string>)
    requires d != []
    ensures d + b != [] && (d + b)[0] == d[0]
  {
  }

  lemma Regroup(x: string, y: string, z: string)
    ensures x + y + z == x + (y + z) && "" + z == z
  {
  }

  lemma BehindIsFlat(q: string, b: seq<string>)
    requires b == Cut(q) && (q == "" || q[0] == '/')
    ensures var b' := if b == [] then ["/"] else b; Pieces(b') && Slashed(b'[0]) && Flat(b') == Behind(q)
  {
    CutSlashed(q);
    FlatOne("/");
  }

  lemma DotsVanish(p: string, d: seq<string>, q: string)
    requires Firm(p) && (q == "" || q[0] == '/') && NoBreaks(p + (Flat(d) + q)) && NoBreaks(p + Behind(q))
    requires Pieces(d) && d != [] && Slashed(d[0]) && (d[|d| - 1] == "/." || d[|d| - 1] == "/..")
    requires forall r :: Stack(d, r) == r
    ensures Remove(p + (Flat(d) + q)) == Remove(p + Behind(q))
  {
    hide *;
    var c, b := Cut(p), Cut(q);
    var r := Base(c);
    FirmCut(p);
    CutSlashed(q);
    JoinPieces(d, b);
    BehindIsFlat(q, b);
    var a := c[|r|..];
    SplitAt(c, r);
    FirstOf(d, b);
    assert Stack(d, Stack(a, r)) == Stack(a, r);
    PiecesVanish(c, d, b, if b == [] then ["/"] else b, r, a);
  }

  // ---------------------------------------------------------------- the laws of dot segments

  lemma BreaksOfParts(p: string, d: string, q: string)
    requires NoBreaks(p) && NoBreaks(d) && NoBreaks(q)
    ensures NoBreaks(p + (d + q)) && NoBreaks(p + Behind(q))
  {
    assert !IsBreak('/');
  }

  // A segment and a ".." as pieces.
  lemma UpPieces(x: string)
    requires NoBreaks(x) && '/' !in x && x != "." && x != ".."
    ensures var y := "/" + x;
      && Slashed(y) && Slashed("/..") && Pieces([y, "/.."]) && NoBreaks(y + "/..") && Flat([y, "/.."]) == y + "/.."
      && forall r :: Stack([y, "/.."], r) == r
  {
    var y := "/" + x;
    assert y[1..] == x && !IsBreak('/') && y != "/." && y != "/.." && y[0] == '/';
    FlatTwo(y, "/..");
    hide Stack;
    forall r ensures Stack([y, "/.."], r) == r { PushAndPop(y, r); }
  }

  lemma UpText(p: string, x: string, q: string)
    ensures p + "/" + x + "/.." + q == p + (("/" + x) + "/.." + q)
  {
  }

  /** A segment and the ".." behind it cancel each other, and nothing else is lost. */
  lemma UpCancels(p: string, x: string, q: string)
    requires NoBreaks(p) && NoBreaks(x) && NoBreaks(q) && Firm(p) && (q == "" || q[0] == '/')
    requires '/' !in x && x != "." && x != ".."
    ensures Remove(p + "/" + x + "/.." + q) == Remove(p + Behind(q))
  {
    hide Firm, NoBreaks, Stack, Slashed, Pieces, Flat, Remove, Behind;
    var y := "/" + x;
    UpPieces(x);
    BreaksOfParts(p, y + "/..", q);
    DotsVanish(p, [y, "/.."], q);
    UpText(p, x, q);
  }

  lemma FlatTwo(x: string, y: string)
    ensures Flat([x, y]) == x + y
  {
    assert [x, y] == [x] + [y];
    FlatOne(x);
    FlatPush([x], y);
  }

  lemma OnePiece(x: string)
    requires '/' !in x && x != "." && x != ".."
    ensures var c := if x == "" then [] else [x];
      Pieces(c) && Base(c) == c && Flat(c) == x && Pop(c) == [] && (c != [] ==> !IsDots(c[0]))
  {
    if x == "" {
      assert Flat([]) == "";
    } else {
      FlatOne(x);
    }
  }

  lemma UpAndPieces(x: string, c: seq<string>, b: seq<string>, b': seq<string>)
    requires Pieces(c) && Base(c) == c && Flat(c) == x && Pop(c) == [] && (c != [] ==> !IsDots(c[0]))
    requires Pieces(["/.."] + b) && Slashed("/..") && NoBreaks(x + Flat(["/.."] + b))
    requires b' == (if b == [] then ["/"] else b) && Pieces(b') && Slashed(b'[0]) && NoBreaks("" + Flat(b'))
    ensures Remove(x + Flat(["/.."] + b)) == Remove("" + Flat(b'))
  {
    var none: seq<string> := [];
    assert Pieces(none) && Base(none) == none && Flat(none) == "";
    hide *;
    assert c + none == c && none + none == none && none + (["/.."] + b) == ["/.."] + b && none + b' == b';
    PathAndPieces(c, ["/.."] + b, c, none);
    PathAndPieces(none, b', none, none);
    UpFirst(b, c);
  }

  /** At the root a ".." does nothing, and it takes a relative segment away. */
  lemma UpAtRoot(x: string, q: string)
    requires NoBreaks(x) && NoBreaks(q) && (q == "" || q[0] == '/') && '/' !in x && x != "." && x != ".."
    ensures Remove(x + "/.." + q) == Remove(Behind(q))
  {
    assert NoBreaks("/..") && NoBreaks("") && Slashed("/..") && Pieces(["/.."]);
    hide *;
    Regroup(x, "/..", q);
    Regroup("", "", Behind(q));
    var b := Cut(q);
    FlatOne("/..");
    OnePiece(x);
    CutSlashed(q);
    JoinPieces(["/.."], b);
    BehindIsFlat(q, b);
    BreaksOfParts(x, "/..", q);
    BreaksOfParts("", "/..", q);
    UpAndPieces(x, if x == "" then [] else [x], b, if b == [] then ["/"] else b);
  }

  lemma UpFirst(b: seq<string>, r: seq<string>)
    ensures ResolveAbsolute(["/.."] + b, r) == ResolveAbsolute(if b == [] then ["/"] else b, Pop(r))
  {
    assert (["/.."] + b)[1..] == b;
    if b == [] {
      assert ["/"][1..] == [];
    }
  }

  /** A "." does nothing. */
  lemma HereVanishes(p: string, q: string)
    requires NoBreaks(p) && NoBreaks(q) && Firm(p) && (q == "" || q[0] == '/')
    ensures Remove(p + "/." + q) == Remove(p + Behind(q))
  {
    assert NoBreaks("/.") && Slashed("/.");
    FlatOne("/.");
    forall r ensures Stack(["/."], r) == r { HereIsNothing(r); }
    BreaksOfParts(p, "/.", q);
    DotsVanish(p, ["/."], q);
    assert p + "/." + q == p + ("/." + q);
  }

  /** A dot segment in front of the whole path goes together with its slash, whatever follows. */
  lemma LeadingDotsVanish(q: string)
    ensures Remove("./" + q) == Remove(q) && Remove("../" + q) == Remove(q)
    ensures Remove(".") == Remove("..") == Remove("") == Done("")
  {
    assert ("./" + q)[2..] == q && ("../" + q)[3..] == q;
    assert ("../" + q)[1] == '.';
    assert LeadingDots("./" + q) == 2 && LeadingDots("../" + q) == 3;
  }
}
