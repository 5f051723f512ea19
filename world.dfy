/**
 * The toroidal grid (src/world.py): coordinates, the four movement directions,
 * parsing of a movement string, and the wrap-around arithmetic of the world.
 */
module Topology {
  import opened Wrappers

  /** A grid coordinate. It is never validated: wrapping is the world's job. */
  datatype Position = Position(x: int, y: int)

  /** The errors the source raises as `ValueError` while a run is configured. */
  datatype ConfigError =
    | InvalidSize                   // a world or grid size below 1
    | InvalidMove(c: char)          // a movement character that is neither a direction nor whitespace
    | InvalidNumber(text: string)   // a grid size given as text that is not an integer
    | InvalidPosition(text: string) // a start position the coordinate pattern does not match

  // ---------------------------------------------------------------------------
  // Characters

  /** Python's `str.isspace` on one character (the Unicode whitespace code points). */
  predicate IsSpace(c: char)
  {
    var n := c as int;
    n == 0x20 || 0x09 <= n <= 0x0d || 0x1c <= n <= 0x1f || n == 0x85 || n == 0xa0 ||
    n == 0x1680 || 0x2000 <= n <= 0x200a || n == 0x2028 || n == 0x2029 ||
    n == 0x202f || n == 0x205f || n == 0x3000
  }

  /** Upper-casing of one character, on the ASCII letters. */
  function ToUpper(c: char): (r: char)
    ensures 'a' <= c <= 'z' ==> 'A' <= r <= 'Z' && r as int == c as int - 32
    ensures !('a' <= c <= 'z') ==> r == c
  {
    if 'a' <= c <= 'z' then (c as int - 32) as char else c
  }

  /** Decimal text of a natural number, as Python's `str` writes it. */
  function NatText(n: nat): (s: string)
    ensures |s| >= 1
    ensures forall i :: 0 <= i < |s| ==> '0' <= s[i] <= '9'
    ensures n > 0 ==> s[0] != '0'
    decreases n
  {
    if n < 10 then [(48 + n) as char] else NatText(n / 10) + [(48 + n % 10) as char]
  }

  /** Decimal text of an integer, with a leading '-' when it is negative. */
  function IntText(i: int): (s: string)
    ensures |s| >= 1 && (s[0] == '-' <==> i < 0)
    ensures forall k :: 0 <= k < |s| ==> '0' <= s[k] <= '9' || (k == 0 && s[k] == '-')
  {
    if i < 0 then "-" + NatText(-i) else NatText(i)
  }

  /** `Position.__str__`: "(x,y)". */
  function PositionText(p: Position): (s: string)
    ensures |s| >= 5 && s[0] == '(' && s[|s| - 1] == ')'
    ensures forall k :: 0 <= k < |s| ==> s[k] != ' ' && s[k] != '\n'
  {
    "(" + IntText(p.x) + "," + IntText(p.y) + ")"
  }

  // ---------------------------------------------------------------------------
  // Directions

  /** The four movement directions; each is written as one letter of "UDLR". */
  datatype Direction = Up | Down | Left | Right

  function Letter(d: Direction): char
  {
    match d
    case Up => 'U'
    case Down => 'D'
    case Left => 'L'
    case Right => 'R'
  }

  /** The direction whose letter is `c`, if any (membership in `Direction.DELTAS`). */
  function DirectionOf(c: char): (r: Option<Direction>)
    ensures r.Some? <==> c in "UDLR"
    ensures r.Some? ==> Letter(r.value) == c
  {
    match c
    case 'U' => Some(Up)
    case 'D' => Some(Down)
    case 'L' => Some(Left)
    case 'R' => Some(Right)
    case _ => None
  }

  /** `Direction.get_delta`: the unit vector (dx, dy) of a direction; y grows downwards. */
  function Delta(d: Direction): (r: (int, int))
    ensures (if r.0 < 0 then -r.0 else r.0) + (if r.1 < 0 then -r.1 else r.1) == 1
    ensures d == Up <==> r == (0, -1)
    ensures d == Down <==> r == (0, 1)
    ensures d == Left <==> r == (-1, 0)
    ensures d == Right <==> r == (1, 0)
  {
    match d
    case Up => (0, -1)
    case Down => (0, 1)
    case Left => (-1, 0)
    case Right => (1, 0)
  }

  /** A character `Direction.parse` accepts: a direction letter in either case, or whitespace. */
  predicate IsLegal(c: char)
  {
    DirectionOf(ToUpper(c)).Some? || IsSpace(ToUpper(c))
  }

  /** The directions named in `s`, in order; every other character is dropped. */
  function DirectionsIn(s: string): (r: seq<Direction>)
    ensures |r| <= |s|
  {
    if s == [] then []
    else
      var last := DirectionOf(ToUpper(s[|s| - 1]));
      DirectionsIn(s[..|s| - 1]) + (if last.Some? then [last.value] else [])
  }

  /**
   * `Direction.parse`: upper-cases the string, skips whitespace, collects the direction
   * letters in order, and fails on the first character that is neither.
   */
  method ParseDirections(moveString: string) returns (r: Result<seq<Direction>, ConfigError>)
    ensures r.Success? <==> forall i :: 0 <= i < |moveString| ==> IsLegal(moveString[i])
    ensures r.Success? ==> r.value == DirectionsIn(moveString)
    ensures r.Failure? ==>
      exists k :: 0 <= k < |moveString| && !IsLegal(moveString[k]) &&
        r.error == InvalidMove(ToUpper(moveString[k])) &&
        forall i :: 0 <= i < k ==> IsLegal(moveString[i])
  {
    var moves: seq<Direction> := [];
    for i := 0 to |moveString|
      invariant forall j :: 0 <= j < i ==> IsLegal(moveString[j])
      invariant moves == DirectionsIn(moveString[..i])
    {
      var c := ToUpper(moveString[i]);
      assert moveString[..i + 1][..i] == moveString[..i];
      var d := DirectionOf(c);
      if d.Some? {
        moves := moves + [d.value];
      } else if IsSpace(c) {
        continue;
      } else {
        return Failure(InvalidMove(c));
      }
    }
    assert moveString[..|moveString|] == moveString;
    return Success(moves);
  }

  /** `DirectionsIn` keeps order: the directions of a concatenation are the concatenation of theirs. */
  lemma {:induction false} DirectionsInAppend(a: string, b: string)
    ensures DirectionsIn(a + b) == DirectionsIn(a) + DirectionsIn(b)
    decreases |b|
  {
    if b == [] {
      assert a + b == a;
    } else {
      var b' := b[..|b| - 1];
      assert (a + b)[..|a + b| - 1] == a + b';
      assert (a + b)[|a + b| - 1] == b[|b| - 1];
      DirectionsInAppend(a, b');
    }
  }

  // ---------------------------------------------------------------------------
  // The world

  /** A valid world size. */
  type GridSize = n: int | n >= 1 witness 1

  /** An N x N toroidal world; immutable once built. */
  datatype World = World(size: GridSize)

  /** `World.__init__`: fails exactly when the size is below 1. */
  function NewWorld(size: int): (r: Result<World, ConfigError>)
    ensures r.Success? <==> size >= 1
    ensures r.Success? ==> r.value.size == size
    ensures r.Failure? ==> r.error == InvalidSize
  {
    if size < 1 then Failure(InvalidSize) else Success(World(size))
  }

  /** `World.is_valid`: both coordinates lie in [0, size). */
  predicate IsValid(w: World, p: Position)
  {
    0 <= p.x < w.size && 0 <= p.y < w.size
  }

  /**
   * `World.wrap`: each coordinate taken modulo the size with floor semantics (Python's `%`,
   * which for a positive divisor agrees with Dafny's), so -1 wraps to size - 1.
   */
  function Wrap(w: World, p: Position): (r: Position)
    ensures IsValid(w, r)
    ensures (p.x - r.x) % w.size == 0 && (p.y - r.y) % w.size == 0
  {
    CongruentMod(p.x, w.size);
    CongruentMod(p.y, w.size);
    Position(p.x % w.size, p.y % w.size)
  }

  lemma CongruentMod(a: int, n: int)
    requires n >= 1
    ensures (a - a % n) % n == 0
  {
    var q := a / n;
    assert a - a % n == q * n;
    MultipleMod(q, n);
  }

  lemma MultipleMod(q: int, n: int)
    requires n >= 1
    ensures (q * n) % n == 0
  {
    var r := (q * n) % n;
    var k := (q * n) / n;
    assert q * n == k * n + r;
    assert (q - k) * n == r;
    SmallMultiple(q - k, n);
  }

  /** The only multiple of n strictly between -n and n is 0. */
  lemma SmallMultiple(k: int, n: int)
    requires n >= 1 && -n < k * n < n
    ensures k == 0
  {
  }

  /** Wrapping leaves a valid position where it is. */
  lemma WrapValid(w: World, p: Position)
    requires IsValid(w, p)
    ensures Wrap(w, p) == p
  {
    ModUnique(p.x, p.x, 0, w.size);
    ModUnique(p.y, p.y, 0, w.size);
  }

  /** `World.move`: add the direction's delta, then wrap. */
  function Move(w: World, p: Position, d: Direction): (r: Position)
    ensures IsValid(w, r)
  {
    var (dx, dy) := Delta(d);
    Wrap(w, Position(p.x + dx, p.y + dy))
  }

  /** The neighbour of a valid cell on the torus, written out edge by edge. */
  function Neighbour(w: World, p: Position, d: Direction): Position
  {
    match d
    case Up => Position(p.x, if p.y == 0 then w.size - 1 else p.y - 1)
    case Down => Position(p.x, if p.y == w.size - 1 then 0 else p.y + 1)
    case Left => Position(if p.x == 0 then w.size - 1 else p.x - 1, p.y)
    case Right => Position(if p.x == w.size - 1 then 0 else p.x + 1, p.y)
  }

  /**
   * From a valid cell, a move changes exactly one coordinate by one step, crossing an
   * edge to the opposite edge (L from x = 0 gives x = size - 1).
   */
  lemma MoveFromValid(w: World, p: Position, d: Direction)
    requires IsValid(w, p)
    ensures Move(w, p, d) == Neighbour(w, p, d)
  {
    var n: int := w.size;
    ModUnique(p.x, p.x, 0, n);
    ModUnique(p.y, p.y, 0, n);
    match d
    case Up => StepMod(p.y - 1, n);
    case Down => StepMod(p.y + 1, n);
    case Left => StepMod(p.x - 1, n);
    case Right => StepMod(p.x + 1, n);
  }

  /** One step past an edge lands on the opposite edge. */
  lemma StepMod(a: int, n: int)
    requires n >= 1 && -1 <= a <= n
    ensures a % n == if a == -1 then n - 1 else if a == n then 0 else a
  {
    if a == -1 {
      ModUnique(a, n - 1, -1, n);
    } else if a == n {
      ModUnique(a, 0, 1, n);
    } else {
      ModUnique(a, a, 0, n);
    }
  }

  /** The remainder modulo n is the unique c in [0, n) that differs from a by a multiple of n. */
  lemma ModUnique(a: int, c: int, k: int, n: int)
    requires n >= 1 && 0 <= c < n && a == c + k * n
    ensures a % n == c
  {
    var q, r := a / n, a % n;
    assert q * n + r == c + k * n;
    assert (q - k) * n == c - r;
    SmallMultiple(q - k, n);
  }

  /** Division and remainder recover row and column of a row-major index. */
  lemma RowMajor(x: int, y: int, n: int)
    requires n >= 1 && 0 <= x < n && 0 <= y
    ensures (y * n + x) / n == y && (y * n + x) % n == x
  {
    var i := y * n + x;
    var q, r := i / n, i % n;
    assert q * n + r == y * n + x;
    assert (y - q) * n == r - x;
    SmallMultiple(y - q, n);
  }

  /**
   * `World.all_positions`: every cell, row by row (y outer, x inner). Entry i is the
   * cell (i mod size, i div size); there are size * size of them, all valid and distinct,
   * and every valid cell occurs.
   */
  method AllPositions(w: World) returns (ps: seq<Position>)
    ensures |ps| == w.size * w.size
    ensures forall i :: 0 <= i < |ps| ==> ps[i] == Position(i % w.size, i / w.size)
    ensures forall i :: 0 <= i < |ps| ==> IsValid(w, ps[i])
    ensures forall i, j :: 0 <= i < j < |ps| ==> ps[i] != ps[j]
    ensures forall p :: IsValid(w, p) ==> p in ps
  {
    var n := w.size;
    ps := [];
    for y := 0 to n
      invariant |ps| == y * n
      invariant forall i :: 0 <= i < |ps| ==> ps[i] == Position(i % n, i / n)
    {
      for x := 0 to n
        invariant |ps| == y * n + x
        invariant forall i :: 0 <= i < |ps| ==> ps[i] == Position(i % n, i / n)
      {
        RowMajor(x, y, n);
        ps := ps + [Position(x, y)];
      }
    }
    RowMajorGrid(w, ps);
  }

  /** Facts about a row-major enumeration of an n x n grid. */
  lemma RowMajorGrid(w: World, ps: seq<Position>)
    requires |ps| == w.size * w.size
    requires forall i :: 0 <= i < |ps| ==> ps[i] == Position(i % w.size, i / w.size)
    ensures forall i :: 0 <= i < |ps| ==> IsValid(w, ps[i])
    ensures forall i, j :: 0 <= i < j < |ps| ==> ps[i] != ps[j]
    ensures forall p :: IsValid(w, p) ==> p in ps
  {
    var n := w.size;
    forall i | 0 <= i < |ps| ensures IsValid(w, ps[i]) {
      RowMajorBound(i, n);
    }
    forall i, j | 0 <= i < j < |ps| ensures ps[i] != ps[j] {
      RowMajorInjective(i, j, n);
    }
    forall p | IsValid(w, p) ensures p in ps {
      RowMajor(p.x, p.y, n);
      RowMajorIndex(p.x, p.y, n);
      assert ps[p.y * n + p.x] == p;
    }
  }

  lemma RowMajorInjective(i: int, j: int, n: int)
    requires n >= 1 && 0 <= i < j
    ensures i % n != j % n || i / n != j / n
  {
    assert i == (i / n) * n + i % n;
    assert j == (j / n) * n + j % n;
  }

  lemma RowMajorIndex(x: int, y: int, n: int)
    requires 0 <= x < n && 0 <= y < n
    ensures 0 <= y * n + x < n * n
  {
    MulMono(y, n - 1, n);
  }

  lemma RowMajorBound(i: int, n: int)
    requires n >= 1 && 0 <= i < n * n
    ensures 0 <= i / n < n && 0 <= i % n < n
  {
    var q := i / n;
    assert q * n <= i;
    if q >= n {
      MulMono(n, q, n);
    }
  }

  lemma MulMono(a: int, b: int, n: int)
    requires 0 <= a <= b && n >= 0
    ensures a * n <= b * n
  {
  }
}
