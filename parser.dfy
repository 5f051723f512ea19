/**
 * Input normalisation (src/parser.py): the movement-string filter `parse_moves`, the
 * integer conversion of a grid size given as text, and `parse_config`, which checks the
 * size and assembles a configuration. Position parsing is a regular-expression search in
 * the source; here its outcome is a parameter.
 */
module Parsing {
  import opened Wrappers
  import opened Topology

  // ---------------------------------------------------------------------------
  // parse_moves

  /**
   * The ligatures 'ﬂ' (U+FB02) and 'ﬄ' (U+FB04): Python upper-cases them to "FL" and
   * "FFL", which hold the direction letter L although the characters themselves do not.
   */
  predicate HoldsUpperL(c: char)
  {
    c == '\U{FB02}' || c == '\U{FB04}'
  }

  /** The direction letters in the upper-case form of one character, in order. */
  function MoveLetters(c: char): (r: string)
    ensures |r| <= 1 && forall i :: 0 <= i < |r| ==> r[i] in "UDLR"
    ensures ToUpper(c) in "UDLR" ==> r == [ToUpper(c)]
    ensures HoldsUpperL(c) ==> r == "L"
    ensures ToUpper(c) !in "UDLR" && !HoldsUpperL(c) ==> r == []
  {
    if HoldsUpperL(c) then "L"
    else if ToUpper(c) in "UDLR" then [ToUpper(c)]
    else []
  }

  /** `parse_moves`: the input upper-cased, keeping only the letters U, D, L and R, in order. */
  function ParseMoves(text: string): (r: string)
    ensures |r| <= |text|
    ensures forall i :: 0 <= i < |r| ==> r[i] in "UDLR"
  {
    if text == [] then []
    else ParseMoves(text[..|text| - 1]) + MoveLetters(text[|text| - 1])
  }

  /** The filter keeps order: the moves of a concatenation are the concatenated moves. */
  lemma {:induction false} ParseMovesAppend(a: string, b: string)
    ensures ParseMoves(a + b) == ParseMoves(a) + ParseMoves(b)
    decreases |b|
  {
    if b == [] {
      assert a + b == a;
    } else {
      var b' := b[..|b| - 1];
      assert (a + b)[..|a + b| - 1] == a + b';
      assert (a + b)[|a + b| - 1] == b[|b| - 1];
      ParseMovesAppend(a, b');
    }
  }

  /** Case does not matter: two strings equal up to upper-casing give the same moves. */
  lemma {:induction false} ParseMovesIgnoresCase(s: string, t: string)
    requires |s| == |t| && forall i :: 0 <= i < |s| ==> ToUpper(s[i]) == ToUpper(t[i])
    ensures ParseMoves(s) == ParseMoves(t)
    decreases |s|
  {
    if s != [] {
      ParseMovesIgnoresCase(s[..|s| - 1], t[..|t| - 1]);
      assert MoveLetters(s[|s| - 1]) == MoveLetters(t[|t| - 1]);
    }
  }

  /** A string of direction letters is its own normal form; so normalising twice is normalising once. */
  lemma {:induction false} ParseMovesKeepsLetters(s: string)
    requires forall i :: 0 <= i < |s| ==> s[i] in "UDLR"
    ensures ParseMoves(s) == s
    decreases |s|
  {
    if s != [] {
      var init := s[..|s| - 1];
      ParseMovesKeepsLetters(init);
      LetterKept(s[|s| - 1]);
      assert s == init + [s[|s| - 1]];
    }
  }

  lemma ParseMovesIdempotent(s: string)
    ensures ParseMoves(ParseMoves(s)) == ParseMoves(s)
  {
    ParseMovesKeepsLetters(ParseMoves(s));
  }

  /**
   * Every character whose upper-case form holds no direction letter is dropped, spaces
   * and dashes included.
   */
  lemma {:induction false} ParseMovesDropsOthers(s: string)
    requires forall i :: 0 <= i < |s| ==> ToUpper(s[i]) !in "UDLR" && !HoldsUpperL(s[i])
    ensures ParseMoves(s) == []
    decreases |s|
  {
    if s != [] {
      ParseMovesDropsOthers(s[..|s| - 1]);
    }
  }

  /** The letter of each direction, in order. */
  function Letters(ds: seq<Direction>): (r: string)
    ensures |r| == |ds| && forall i :: 0 <= i < |ds| ==> r[i] == Letter(ds[i])
  {
    seq(|ds|, i requires 0 <= i < |ds| => Letter(ds[i]))
  }

  /**
   * `parse_moves` and `Direction.parse` pick the same directions out of any string without
   * the two ligatures; but where `Direction.parse` rejects a character, `parse_moves` drops
   * it silently.
   */
  lemma {:induction false} ParseMovesAgreesWithDirections(s: string)
    requires forall i :: 0 <= i < |s| ==> !HoldsUpperL(s[i])
    ensures ParseMoves(s) == Letters(DirectionsIn(s))
    decreases |s|
  {
    if s != [] {
      var init := s[..|s| - 1];
      ParseMovesAgreesWithDirections(init);
      var c := ToUpper(s[|s| - 1]);
      var d := DirectionOf(c);
      if d.Some? {
        assert Letters(DirectionsIn(s)) == Letters(DirectionsIn(init)) + [Letter(d.value)];
      } else {
        assert Letters(DirectionsIn(s)) == Letters(DirectionsIn(init));
      }
    }
  }

  /**
   * A normalised movement string is always accepted by `Direction.parse`, which reads
   * back exactly its letters; without the two ligatures, these are the directions
   * `Direction.parse` finds in the raw input.
   */
  lemma NormalisedMovesLegal(s: string)
    ensures forall i :: 0 <= i < |ParseMoves(s)| ==> IsLegal(ParseMoves(s)[i])
    ensures Letters(DirectionsIn(ParseMoves(s))) == ParseMoves(s)
    ensures (forall i :: 0 <= i < |s| ==> !HoldsUpperL(s[i])) ==> DirectionsIn(ParseMoves(s)) == DirectionsIn(s)
  {
    var m := ParseMoves(s);
    forall i | 0 <= i < |m|
      ensures IsLegal(m[i]) && !HoldsUpperL(m[i])
    {
      LetterLegal(m[i]);
    }
    ParseMovesAgreesWithDirections(m);
    ParseMovesIdempotent(s);
    if forall i :: 0 <= i < |s| ==> !HoldsUpperL(s[i]) {
      ParseMovesAgreesWithDirections(s);
      LettersInjective(DirectionsIn(m), DirectionsIn(s));
    }
  }

  /** Each direction letter is legal in a movement string. */
  lemma LetterLegal(c: char)
    requires c in "UDLR"
    ensures IsLegal(c) && !HoldsUpperL(c)
  {
    assert ToUpper(c) == c;
  }

  /** Directions are recovered from their letters. */
  lemma LettersInjective(a: seq<Direction>, b: seq<Direction>)
    requires Letters(a) == Letters(b)
    ensures a == b
  {
    assert |a| == |b|;
    forall i | 0 <= i < |a|
      ensures a[i] == b[i]
    {
      assert Letter(a[i]) == Letter(b[i]);
    }
  }

  /** One character normalises to the direction letters of its upper-case form. */
  lemma ParseMovesSingle(c: char)
    ensures ParseMoves([c]) == MoveLetters(c)
  {
    assert [c][..0] == [];
  }

  /** An upper-case direction letter normalises to itself. */
  lemma LetterKept(c: char)
    requires c in "UDLR"
    ensures MoveLetters(c) == [c]
  {
  }

  /** A dash is neither a direction nor whitespace. */
  lemma DashIllegal()
    ensures !IsLegal('-')
  {
    assert ToUpper('-') == '-';
  }

  /** A dash followed by a direction letter adds just the letter. */
  lemma DashThenLetter(p: string, c: char)
    requires c in "UDLR"
    ensures ParseMoves(p + ['-', c]) == ParseMoves(p) + [c]
  {
    var t := p + ['-', c];
    assert t[..|t| - 1] == p + ['-'];
    assert (p + ['-'])[..|p|] == p;
    assert MoveLetters('-') == [] by { assert ToUpper('-') == '-'; }
    LetterKept(c);
  }

  /** Four direction letters separated by dashes normalise to the four letters. */
  lemma DashSeparated(s: string)
    requires |s| == 7 && s[1] == s[3] == s[5] == '-'
    requires s[0] in "UDLR" && s[2] in "UDLR" && s[4] in "UDLR" && s[6] in "UDLR"
    ensures ParseMoves(s) == [s[0], s[2], s[4], s[6]]
  {
    var p1 := [s[0]];
    var p2 := p1 + ['-', s[2]];
    var p3 := p2 + ['-', s[4]];
    assert s == p3 + ['-', s[6]];
    ParseMovesSingle(s[0]);
    LetterKept(s[0]);
    DashThenLetter(p1, s[2]);
    DashThenLetter(p2, s[4]);
    DashThenLetter(p3, s[6]);
  }

  /** The dashes of "R-D-R-U" are dropped, while `Direction.parse` would reject the first one. */
  lemma DashesDropped(s: string)
    requires s == "R-D-R-U"
    ensures ParseMoves(s) == "RDRU" && !IsLegal('-')
  {
    DashIllegal();
    DashSeparated(s);
  }

  /** Each ligature normalises to "L", while `Direction.parse` rejects it. */
  lemma LigaturesGiveL()
    ensures ParseMoves(['\U{FB02}']) == "L" && !IsLegal('\U{FB02}')
    ensures ParseMoves(['\U{FB04}']) == "L" && !IsLegal('\U{FB04}')
  {
    ParseMovesSingle('\U{FB02}');
    ParseMovesSingle('\U{FB04}');
  }

  // ---------------------------------------------------------------------------
  // int() on a grid size given as text

  /**
   * The whitespace `int` skips around a number: the ASCII characters space, \t, \n, \v,
   * \f and \r, and every non-ASCII character `str.isspace` accepts. The ASCII separators
   * U+001C to U+001F count as whitespace for `str.strip` but not for `int`.
   */
  predicate IsIntSpace(c: char)
  {
    IsSpace(c) && !('\U{1C}' <= c <= '\U{1F}')
  }

  /** The number of whitespace characters, in the sense of `ws`, at the start of `s`. */
  function LeadingSpaces(s: string, ws: char -> bool): (n: nat)
    ensures n <= |s|
    ensures forall k :: 0 <= k < n ==> ws(s[k])
    ensures n < |s| ==> !ws(s[n])
    decreases |s|
  {
    if s == [] || !ws(s[0]) then 0 else 1 + LeadingSpaces(s[1..], ws)
  }

  /** The text without its trailing whitespace, in the sense of `ws`. */
  function StripEnd(s: string, ws: char -> bool): (r: string)
    ensures |r| <= |s| && r == s[..|r|]
    ensures r != [] ==> !ws(r[|r| - 1])
    ensures forall k :: |r| <= k < |s| ==> ws(s[k])
    decreases |s|
  {
    if s == [] then []
    else if ws(s[|s| - 1]) then StripEnd(s[..|s| - 1], ws)
    else s
  }

  /**
   * `strip`: the text without its leading and trailing whitespace, in the sense of `ws`.
   * The result is the slice of `s` that remains once whitespace is cut from both ends.
   */
  function Strip(s: string, ws: char -> bool): (r: string)
    ensures exists i, j ::
              && 0 <= i <= j <= |s| && r == s[i..j]
              && (forall k :: 0 <= k < i ==> ws(s[k]))
              && (forall k :: j <= k < |s| ==> ws(s[k]))
    ensures r != [] ==> !ws(r[0]) && !ws(r[|r| - 1])
    ensures (forall k :: 0 <= k < |s| ==> ws(s[k])) <==> r == []
  {
    var n := LeadingSpaces(s, ws);
    var r := StripEnd(s[n..], ws);
    assert r == s[n..n + |r|];
    r
  }

  /** Text with no whitespace at either end, padded with whitespace, strips back to itself. */
  lemma StripPadded(w1: string, m: string, w2: string, ws: char -> bool)
    requires forall k :: 0 <= k < |w1| ==> ws(w1[k])
    requires forall k :: 0 <= k < |w2| ==> ws(w2[k])
    requires m != [] && !ws(m[0]) && !ws(m[|m| - 1])
    ensures Strip(w1 + m + w2, ws) == m
  {
    var s := w1 + m + w2;
    var r := Strip(s, ws);
    var i, j :| 0 <= i <= j <= |s| && r == s[i..j]
      && (forall k :: 0 <= k < i ==> ws(s[k])) && (forall k :: j <= k < |s| ==> ws(s[k]));
    assert s[|w1|] == m[0] && s[|w1| + |m| - 1] == m[|m| - 1];
    assert i == |w1|;
    assert j == |w1| + |m|;
    assert s[i..j] == m;
  }

  predicate IsDigit(c: char)
  {
    '0' <= c <= '9'
  }

  predicate AllDigits(s: string)
  {
    forall i :: 0 <= i < |s| ==> IsDigit(s[i])
  }

  /** The value of a string of decimal digits. */
  function DigitsValue(ds: string): (n: nat)
    requires AllDigits(ds)
  {
    if ds == [] then 0
    else
      var last := ds[|ds| - 1];
      assert IsDigit(last);
      DigitsValue(ds[..|ds| - 1]) * 10 + (last as int - '0' as int)
  }

  /** The number a text without surrounding whitespace denotes: an optional sign, then at least one digit. */
  function SignedValue(t: string): (r: Option<int>)
    ensures r.Some? <==> (t != [] && AllDigits(t)) || (|t| >= 2 && (t[0] == '-' || t[0] == '+') && AllDigits(t[1..]))
  {
    var unsigned := if t != [] && (t[0] == '-' || t[0] == '+') then t[1..] else t;
    if unsigned == [] || !AllDigits(unsigned) then None
    else
      var magnitude: int := DigitsValue(unsigned);
      Some(if t[0] == '-' then -magnitude else magnitude)
  }

  /**
   * `int(text)` in base 10: surrounding whitespace is ignored, then an optional sign and
   * at least one decimal digit must make up the rest.
   */
  function ParseInt(text: string): (r: Result<int, ConfigError>)
    ensures r.Failure? ==> r.error == InvalidNumber(text)
    ensures r.Success? <==> SignedValue(Strip(text, IsIntSpace)).Some?
  {
    var v := SignedValue(Strip(text, IsIntSpace));
    if v.None? then Failure(InvalidNumber(text)) else Success(v.value)
  }

  /** A character that is neither a digit nor a sign makes a stripped text denote no number. */
  lemma SignedValueRejects(t: string, k: nat)
    requires k < |t| && !IsDigit(t[k]) && t[k] != '+' && t[k] != '-'
    ensures SignedValue(t) == None
  {
    if t[0] == '-' || t[0] == '+' {
      assert k >= 1 && t[1..][k - 1] == t[k];
    }
  }

  /** A character that is not whitespace lies inside the slice left by stripping, at its offset. */
  lemma SliceHolds(text: string, i: nat, j: nat, k: nat)
    requires i <= j <= |text| && k < |text| && !IsIntSpace(text[k])
    requires forall k :: 0 <= k < i ==> IsIntSpace(text[k])
    requires forall k :: j <= k < |text| ==> IsIntSpace(text[k])
    ensures i <= k < j && text[i..j][k - i] == text[k]
  {
  }

  /** A character that is neither a digit, a sign nor whitespace `int` skips makes `int` fail. */
  lemma ParseIntRejects(text: string, k: nat)
    requires k < |text| && !IsDigit(text[k]) && text[k] != '+' && text[k] != '-' && !IsIntSpace(text[k])
    ensures ParseInt(text) == Failure(InvalidNumber(text))
  {
    var t := Strip(text, IsIntSpace);
    var i, j :|
      && 0 <= i <= j <= |text| && t == text[i..j]
      && (forall k :: 0 <= k < i ==> IsIntSpace(text[k]))
      && (forall k :: j <= k < |text| ==> IsIntSpace(text[k]));
    SliceHolds(text, i, j, k);
    SignedValueRejects(t, k - i);
  }

  /** Text made only of whitespace `int` skips (the empty text included) is not a number. */
  lemma ParseIntBlank(text: string)
    requires forall k :: 0 <= k < |text| ==> IsIntSpace(text[k])
    ensures ParseInt(text) == Failure(InvalidNumber(text))
  {
  }

  /**
   * An optional sign and a non-empty run of digits, with whitespace `int` skips on either
   * side, reads as the signed value of the digits.
   */
  lemma ParseIntPadded(w1: string, sign: string, ds: string, w2: string)
    requires forall k :: 0 <= k < |w1| ==> IsIntSpace(w1[k])
    requires forall k :: 0 <= k < |w2| ==> IsIntSpace(w2[k])
    requires sign == [] || sign == "+" || sign == "-"
    requires ds != [] && AllDigits(ds)
    ensures ParseInt(w1 + (sign + ds) + w2) == Success(if sign == "-" then -(DigitsValue(ds) as int) else DigitsValue(ds))
  {
    var m := sign + ds;
    assert m[0] == (if sign == [] then ds[0] else sign[0]);
    assert m[|m| - 1] == ds[|ds| - 1];
    StripPadded(w1, m, w2, IsIntSpace);
    SignedDigits(sign, ds);
  }

  /** An optional sign followed by digits denotes the signed value of the digits. */
  lemma SignedDigits(sign: string, ds: string)
    requires sign == [] || sign == "+" || sign == "-"
    requires ds != [] && AllDigits(ds)
    ensures SignedValue(sign + ds) == Some(if sign == "-" then -(DigitsValue(ds) as int) else DigitsValue(ds))
  {
    var t := sign + ds;
    if sign == [] {
      assert t == ds && IsDigit(t[0]);
    } else {
      assert t[0] == sign[0] && t[1..] == ds;
    }
  }

  /** Reading back the decimal text of a natural number gives the number. */
  lemma {:induction false} DigitsValueNatText(n: nat)
    ensures DigitsValue(NatText(n)) == n
    decreases n
  {
    if n >= 10 {
      var s := NatText(n);
      DigitsValueNatText(n / 10);
      assert s[..|s| - 1] == NatText(n / 10);
    }
  }

  /** The decimal text of an integer, with whitespace `int` skips on either side, reads back as that integer. */
  lemma ParseIntTextPadded(w1: string, i: int, w2: string)
    requires forall k :: 0 <= k < |w1| ==> IsIntSpace(w1[k])
    requires forall k :: 0 <= k < |w2| ==> IsIntSpace(w2[k])
    ensures ParseInt(w1 + IntText(i) + w2) == Success(i)
  {
    var d := NatText(if i < 0 then -i else i);
    DigitsValueNatText(if i < 0 then -i else i);
    var sign := if i < 0 then "-" else [];
    assert IntText(i) == sign + d;
    ParseIntPadded(w1, sign, d, w2);
  }

  /** `int(str(i)) == i`: the decimal text of every integer reads back as that integer. */
  lemma ParseIntText(i: int)
    ensures ParseInt(IntText(i)) == Success(i)
  {
    var t := IntText(i);
    assert [] + t + [] == t;
    ParseIntTextPadded([], i, []);
  }

  // ---------------------------------------------------------------------------
  // parse_config

  /** A grid size as `parse_config` receives it: a number, or a text to convert with `int`. */
  datatype SizeInput = SizeNumber(n: int) | SizeText(text: string)

  /** `SimulationConfig`. */
  datatype SimulationConfig = SimulationConfig(gridSize: int, zombieStart: Position, creaturePositions: seq<Position>, moves: string)

  /** The grid size as a number: converted with `int` when it is a text. */
  function SizeValue(size: SizeInput): (r: Result<int, ConfigError>)
    ensures size.SizeNumber? ==> r == Success(size.n)
  {
    match size
    case SizeNumber(n) => Success(n)
    case SizeText(text) => ParseInt(text)
  }

  /**
   * `parse_config`. The size is converted first and must be at least 1; then the start
   * position is parsed (`zombieStart`, the outcome of the position pattern on `zombieText`,
   * `None` when it does not match); the creature positions (`parsedCreatures`, the outcome
   * of the pattern on `creatureText`) are used only when that text is not blank; the
   * moves are normalised.
   */
  function ParseConfig(size: SizeInput, zombieText: string, zombieStart: Option<Position>,
                       creatureText: string, parsedCreatures: seq<Position>, moves: string): (r: Result<SimulationConfig, ConfigError>)
    ensures r.Success? ==> r.value.gridSize >= 1 && SizeValue(size) == Success(r.value.gridSize)
    ensures r.Success? ==> zombieStart == Some(r.value.zombieStart) && r.value.moves == ParseMoves(moves)
    ensures r.Success? ==> r.value.creaturePositions == if Strip(creatureText, IsSpace) == [] then [] else parsedCreatures
  {
    var n := SizeValue(size);
    if n.Failure? then Failure(n.error)
    else if n.value < 1 then Failure(InvalidSize)
    else if zombieStart.None? then Failure(InvalidPosition(zombieText))
    else
      var creatures := if Strip(creatureText, IsSpace) == [] then [] else parsedCreatures;
      Success(SimulationConfig(n.value, zombieStart.value, creatures, ParseMoves(moves)))
  }

  /** `parse_config` fails with the size error exactly when the size, once a number, is below 1. */
  lemma ConfigSizeCheck(size: SizeInput, zombieText: string, zombieStart: Option<Position>,
                        creatureText: string, parsedCreatures: seq<Position>, moves: string)
    ensures ParseConfig(size, zombieText, zombieStart, creatureText, parsedCreatures, moves) == Failure(InvalidSize)
      <==> SizeValue(size).Success? && SizeValue(size).value < 1
  {
  }

  /** `parse_config` succeeds exactly when the size converts, is at least 1, and the start position parses. */
  lemma ConfigAccepts(size: SizeInput, zombieText: string, zombieStart: Option<Position>,
                      creatureText: string, parsedCreatures: seq<Position>, moves: string)
    ensures ParseConfig(size, zombieText, zombieStart, creatureText, parsedCreatures, moves).Success?
      <==> SizeValue(size).Success? && SizeValue(size).value >= 1 && zombieStart.Some?
  {
  }

  /** A size given as the text of a number configures the same run as the number itself. */
  lemma ConfigSizeText(n: int, zombieText: string, zombieStart: Option<Position>,
                       creatureText: string, parsedCreatures: seq<Position>, moves: string)
    ensures ParseConfig(SizeText(IntText(n)), zombieText, zombieStart, creatureText, parsedCreatures, moves)
      == ParseConfig(SizeNumber(n), zombieText, zombieStart, creatureText, parsedCreatures, moves)
  {
    ParseIntText(n);
  }

  /** Blank or whitespace-only creature text gives no creatures, whatever the pattern found. */
  lemma ConfigBlankCreatures(size: SizeInput, zombieText: string, zombieStart: Option<Position>,
                             creatureText: string, parsedCreatures: seq<Position>, moves: string)
    requires forall i :: 0 <= i < |creatureText| ==> IsSpace(creatureText[i])
    requires ParseConfig(size, zombieText, zombieStart, creatureText, parsedCreatures, moves).Success?
    ensures ParseConfig(size, zombieText, zombieStart, creatureText, parsedCreatures, moves).value.creaturePositions == []
  {
  }
}
