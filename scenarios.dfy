/**
 * The regression scenarios of the engine (tests/test_simulation.py), stated and proved
 * as lemmas about the model: each run's intermediate states are written out turn by turn.
 */
module Scenarios {
  import opened Wrappers
  import opened Topology
  import opened Entities
  import opened Engine
  import opened EngineProperties

  /**
   * One step in closed form: zombie z is moved to the landing cell p and announced; if the
   * creature indexed at p is infectable it dies, leaves the index, and zombie n (the next
   * id) appears at p, queued last and announced.
   */
  function StepOutcome(s: State, z: nat, d: Direction): (r: State)
    requires s.tracker.Valid() && z < |s.tracker.zombies|
    ensures |r.tracker.zombies| >= |s.tracker.zombies|
  {
    var p := Move(s.world, s.tracker.zombies[z].position, d);
    var n := |s.tracker.zombies|;
    var moved := s.tracker.zombies[z := s.tracker.zombies[z].(position := p)];
    if p in s.tracker.index && s.tracker.creatures[s.tracker.index[p]].infectable then
      var k := s.tracker.index[p];
      State(s.world, s.moves,
        TrackerState(moved + [ZombieRec(n, p, false)], s.tracker.creatures[k := s.tracker.creatures[k].(alive := false)], s.tracker.index - {p}),
        s.queue + [n], s.log + [ZombieMoved(z, p), CreatureInfected(z, p, n)])
    else
      State(s.world, s.moves, TrackerState(moved, s.tracker.creatures, s.tracker.index), s.queue, s.log + [ZombieMoved(z, p)])
  }

  /** The engine's step is the closed form. */
  lemma StepIsOutcome(s: State, z: nat, d: Direction)
    requires s.Valid() && z < |s.tracker.zombies|
    ensures s.Step(z, d) == StepOutcome(s, z, d)
  {
  }

  /** A turn is the front zombie's pass over the moves, then the mark that its turn is done. */
  lemma TurnFromPass(s: State, r: State)
    requires s.Valid() && s.queue != [] && r == s.(queue := s.queue[1..]).ProcessMoves(s.queue[0], s.moves)
    ensures s.Turn() == r.(tracker := r.tracker.(zombies := r.tracker.zombies[s.queue[0] := r.tracker.zombies[s.queue[0]].(hasMoved := true)]))
  {
  }

  /** Where a zombie starting at p ends after the moves ms. */
  function Walk(w: World, p: Position, ms: seq<Direction>): Position
    decreases |ms|
  {
    if ms == [] then p else Walk(w, Move(w, p, ms[0]), ms[1..])
  }

  /** The move events of zombie z walking ms from p. */
  function WalkLog(z: nat, w: World, p: Position, ms: seq<Direction>): (r: seq<Event>)
    ensures |r| == |ms|
    decreases |ms|
  {
    if ms == [] then [] else [ZombieMoved(z, Move(w, p, ms[0]))] + WalkLog(z, w, Move(w, p, ms[0]), ms[1..])
  }

  lemma UpdateTwice<T>(xs: seq<T>, i: nat, a: T, b: T)
    requires i < |xs|
    ensures xs[i := a][i := b] == xs[i := b]
  {
  }

  lemma AppendAssoc<T>(a: seq<T>, b: seq<T>, c: seq<T>)
    ensures a + b + c == a + (b + c)
  {
  }

  /** With nothing indexed, a pass only walks the zombie and announces each move. */
  lemma {:induction false} PassWithNothingIndexed(s: State, z: nat, ms: seq<Direction>)
    requires s.Valid() && z < |s.tracker.zombies| && s.tracker.index == map[]
    ensures
      var zs := s.tracker.zombies;
      s.ProcessMoves(z, ms) ==
        s.(tracker := s.tracker.(zombies := zs[z := zs[z].(position := Walk(s.world, zs[z].position, ms))]),
           log := s.log + WalkLog(z, s.world, zs[z].position, ms))
    decreases |ms|
  {
    var zs := s.tracker.zombies;
    if ms == [] {
      assert zs[z := zs[z].(position := zs[z].position)] == zs;
    } else {
      var p := Move(s.world, zs[z].position, ms[0]);
      var s1 := s.Step(z, ms[0]);
      StepIsOutcome(s, z, ms[0]);
      PassWithNothingIndexed(s1, z, ms[1..]);
      UpdateTwice(zs, z, zs[z].(position := p), zs[z].(position := Walk(s.world, p, ms[1..])));
      AppendAssoc(s.log, [ZombieMoved(z, p)], WalkLog(z, s.world, p, ms[1..]));
    }
  }

  /** The turn of the front zombie when it meets nothing: it walks, announces each move, and is marked. */
  function WalkTurn(s: State): State
    requires s.queue != [] && s.queue[0] < |s.tracker.zombies|
  {
    var z := s.queue[0];
    var zs := s.tracker.zombies;
    s.(queue := s.queue[1..],
       tracker := s.tracker.(zombies := zs[z := zs[z].(position := Walk(s.world, zs[z].position, s.moves), hasMoved := true)]),
       log := s.log + WalkLog(z, s.world, zs[z].position, s.moves))
  }

  /** With nothing indexed, a turn is `WalkTurn`. */
  lemma TurnWithNothingIndexed(s: State)
    requires s.Valid() && s.queue != [] && s.tracker.index == map[]
    ensures s.Turn() == WalkTurn(s)
  {
    var z := s.queue[0];
    var zs := s.tracker.zombies;
    var s1 := s.(queue := s.queue[1..]);
    PassWithNothingIndexed(s1, z, s.moves);
    var q := Walk(s.world, zs[z].position, s.moves);
    assert zs[z := zs[z].(position := q)][z := zs[z].(position := q).(hasMoved := true)] == zs[z := zs[z].(position := q, hasMoved := true)];
  }

  /** With no moves, a run from a single queued zombie is its one turn, which only marks that zombie as moved. */
  lemma RunWithoutMoves(s: State, f: State)
    requires s.Valid() && s.moves == [] && |s.queue| == 1 && f == s.Run()
    ensures
      var zs := s.tracker.zombies;
      f == s.(tracker := s.tracker.(zombies := zs[s.queue[0] := zs[s.queue[0]].(hasMoved := true)]), queue := [])
  {
    assert s.Run() == s.Turn().Run();
  }

  /** The zombie roster a run starts from: zombie 0 at the start position, unmoved. */
  lemma InitialRoster(world: World, start: Position, creaturePositions: seq<Position>, moves: seq<Direction>)
    ensures
      var s := Initial(world, start, creaturePositions, moves);
      s.tracker.zombies == [ZombieRec(0, start, false)] && s.tracker.creatures == NewCreatures(creaturePositions) &&
      s.queue == [0] && s.log == []
  {
    var t := EmptyTracker().CreateZombieAt(start).0;
    assert t.zombies == [] + [ZombieRec(0, start, false)];
  }

  /**
   * The state an empty movement sequence ends in: no event was emitted, and zombie 0 is
   * marked as moved and has not left the start position.
   */
  lemma NoMovesEnd(world: World, start: Position, creaturePositions: seq<Position>, moves: seq<Direction>, f: State)
    requires moves == [] && f == Initial(world, start, creaturePositions, moves).Run()
    ensures f.log == [] && f.tracker.zombies == [ZombieRec(0, start, true)]
    ensures f.tracker.creatures == NewCreatures(creaturePositions)
  {
    var s := Initial(world, start, creaturePositions, moves);
    InitialRoster(world, start, creaturePositions, moves);
    RunWithoutMoves(s, f);
    assert f.tracker.zombies == [ZombieRec(0, start, false)][0 := ZombieRec(0, start, true)];
  }

  /** Every creature `__init__` places is alive, so all of them are living. */
  lemma NewCreaturesLiving(creaturePositions: seq<Position>)
    ensures Living(NewCreatures(creaturePositions)) == NewCreatures(creaturePositions)
  {
    LivingAllOrNone(NewCreatures(creaturePositions));
  }

  /**
   * An empty movement sequence: zombie 0 takes its turn without moving, no creature is
   * infected (not even one at the start position, since creating a zombie never infects),
   * and every creature is reported as a survivor.
   */
  lemma NoMoves(world: World, start: Position, creaturePositions: seq<Position>, moves: seq<Direction>)
    requires moves == []
    ensures Simulate(world, start, creaturePositions, moves) == SimulationResult([ZombieRec(0, start, true)], NewCreatures(creaturePositions))
  {
    var f := Initial(world, start, creaturePositions, moves).Run();
    NoMovesEnd(world, start, creaturePositions, moves, f);
    NewCreaturesLiving(creaturePositions);
  }

  // ---------------------------------------------------------------------------
  // The worked example: a 4 x 4 grid, zombie at (3,1), creatures at (0,1), (1,2), (1,1), moves RDRU

  const Grid4 := World(4)
  const ExampleCreatures := [Position(0, 1), Position(1, 2), Position(1, 1)]
  const ExampleMoves := [Right, Down, Right, Up]

  const ExampleStart := State(Grid4, ExampleMoves,
    TrackerState([ZombieRec(0, Position(3, 1), false)],
                 [CreatureRec(Position(0, 1), true, true), CreatureRec(Position(1, 2), true, true), CreatureRec(Position(1, 1), true, true)],
                 map[Position(0, 1) := 0, Position(1, 2) := 1, Position(1, 1) := 2]),
    [0], [])

  /** Zombie 0's turn: it infects all three creatures, at (0,1), (1,2) and (1,1). */
  const ExampleLog0 := [
    ZombieMoved(0, Position(0, 1)), CreatureInfected(0, Position(0, 1), 1),
    ZombieMoved(0, Position(0, 2)),
    ZombieMoved(0, Position(1, 2)), CreatureInfected(0, Position(1, 2), 2),
    ZombieMoved(0, Position(1, 1)), CreatureInfected(0, Position(1, 1), 3)]

  const ExampleDead := [CreatureRec(Position(0, 1), true, false), CreatureRec(Position(1, 2), true, false), CreatureRec(Position(1, 1), true, false)]

  const ExampleAfter0 := State(Grid4, ExampleMoves,
    TrackerState([ZombieRec(0, Position(1, 1), true), ZombieRec(1, Position(0, 1), false),
                  ZombieRec(2, Position(1, 2), false), ZombieRec(3, Position(1, 1), false)],
                 ExampleDead, map[]),
    [1, 2, 3], ExampleLog0)

  const ExampleWalkLog1 := [
    ZombieMoved(1, Position(1, 1)), ZombieMoved(1, Position(1, 2)), ZombieMoved(1, Position(2, 2)), ZombieMoved(1, Position(2, 1))]

  const ExampleLog1 := ExampleLog0 + ExampleWalkLog1

  const ExampleAfter1 := State(Grid4, ExampleMoves,
    TrackerState([ZombieRec(0, Position(1, 1), true), ZombieRec(1, Position(2, 1), true),
                  ZombieRec(2, Position(1, 2), false), ZombieRec(3, Position(1, 1), false)],
                 ExampleDead, map[]),
    [2, 3], ExampleLog1)

  const ExampleWalkLog2 := [
    ZombieMoved(2, Position(2, 2)), ZombieMoved(2, Position(2, 3)), ZombieMoved(2, Position(3, 3)), ZombieMoved(2, Position(3, 2))]

  const ExampleLog2 := ExampleLog1 + ExampleWalkLog2

  const ExampleAfter2 := State(Grid4, ExampleMoves,
    TrackerState([ZombieRec(0, Position(1, 1), true), ZombieRec(1, Position(2, 1), true),
                  ZombieRec(2, Position(3, 2), true), ZombieRec(3, Position(1, 1), false)],
                 ExampleDead, map[]),
    [3], ExampleLog2)

  const ExampleWalkLog3 := [
    ZombieMoved(3, Position(2, 1)), ZombieMoved(3, Position(2, 2)), ZombieMoved(3, Position(3, 2)), ZombieMoved(3, Position(3, 1))]

  const ExampleLog3 := ExampleLog2 + ExampleWalkLog3

  const ExampleEnd := State(Grid4, ExampleMoves,
    TrackerState([ZombieRec(0, Position(1, 1), true), ZombieRec(1, Position(2, 1), true),
                  ZombieRec(2, Position(3, 2), true), ZombieRec(3, Position(3, 1), true)],
                 ExampleDead, map[]),
    [], ExampleLog3)

  // Zombie 0's pass, step by step (it has left the queue).
  const ExampleLive := [CreatureRec(Position(0, 1), true, true), CreatureRec(Position(1, 2), true, true), CreatureRec(Position(1, 1), true, true)]

  const ExamplePass0 := ExampleStart.(queue := [])

  const ExamplePass1 := State(Grid4, ExampleMoves,
    TrackerState([ZombieRec(0, Position(0, 1), false), ZombieRec(1, Position(0, 1), false)],
                 ExampleLive[0 := ExampleDead[0]], map[Position(1, 2) := 1, Position(1, 1) := 2]),
    [1], ExampleLog0[..2])

  const ExamplePass2 := State(Grid4, ExampleMoves,
    TrackerState([ZombieRec(0, Position(0, 2), false), ZombieRec(1, Position(0, 1), false)],
                 ExampleLive[0 := ExampleDead[0]], map[Position(1, 2) := 1, Position(1, 1) := 2]),
    [1], ExampleLog0[..3])

  const ExamplePass3 := State(Grid4, ExampleMoves,
    TrackerState([ZombieRec(0, Position(1, 2), false), ZombieRec(1, Position(0, 1), false), ZombieRec(2, Position(1, 2), false)],
                 ExampleDead[2 := ExampleLive[2]], map[Position(1, 1) := 2]),
    [1, 2], ExampleLog0[..5])

  const ExamplePass4 := State(Grid4, ExampleMoves,
    TrackerState([ZombieRec(0, Position(1, 1), false), ZombieRec(1, Position(0, 1), false),
                  ZombieRec(2, Position(1, 2), false), ZombieRec(3, Position(1, 1), false)],
                 ExampleDead, map[]),
    [1, 2, 3], ExampleLog0)

  lemma ExampleStep1()
    ensures StepOutcome(ExamplePass0, 0, Right) == ExamplePass1
  {
    assert ExampleStart.tracker.index - {Position(0, 1)} == ExamplePass1.tracker.index;
  }

  lemma ExampleStep2()
    ensures StepOutcome(ExamplePass1, 0, Down) == ExamplePass2
  {
  }

  lemma ExampleStep3()
    ensures StepOutcome(ExamplePass2, 0, Right) == ExamplePass3
  {
    assert ExamplePass2.tracker.index - {Position(1, 2)} == ExamplePass3.tracker.index;
  }

  lemma ExampleStep4()
    ensures StepOutcome(ExamplePass3, 0, Up) == ExamplePass4
  {
    assert ExamplePass3.tracker.index - {Position(1, 1)} == map[];
  }

  /** The last step of zombie 0's pass. */
  lemma ExamplePassFrom3()
    ensures ExamplePass3.Valid() && ExamplePass3.ProcessMoves(0, [Up]) == ExamplePass4
  {
    ExampleStep4();
    StepIsOutcome(ExamplePass3, 0, Up);
  }

  lemma ExamplePassFrom2()
    ensures ExamplePass2.Valid() && ExamplePass2.ProcessMoves(0, [Right, Up]) == ExamplePass4
  {
    ExampleStep3();
    StepIsOutcome(ExamplePass2, 0, Right);
    ExamplePassFrom3();
    assert [Right, Up][1..] == [Up];
  }

  lemma ExamplePassFrom1()
    ensures ExamplePass1.Valid() && ExamplePass1.ProcessMoves(0, [Down, Right, Up]) == ExamplePass4
  {
    ExampleStep2();
    StepIsOutcome(ExamplePass1, 0, Down);
    ExamplePassFrom2();
    assert [Down, Right, Up][1..] == [Right, Up];
  }

  lemma ExamplePassFrom0()
    ensures ExamplePass0.Valid() && ExamplePass0.ProcessMoves(0, ExampleMoves) == ExamplePass4
  {
    ExampleStep1();
    StepIsOutcome(ExamplePass0, 0, Right);
    ExamplePassFrom1();
    assert ExampleMoves[1..] == [Down, Right, Up];
  }

  lemma ExampleTurn0()
    ensures ExampleStart.Valid() && ExampleStart.queue != [] && ExampleStart.Turn() == ExampleAfter0
  {
    ExampleDequeue();
    ExamplePassFrom0();
    TurnFromPass(ExampleStart, ExamplePass4);
    ExampleMark0();
  }

  /** Zombie 0 leaves the queue. */
  lemma ExampleDequeue()
    ensures ExampleStart.Valid() && ExampleStart.queue == [0] && ExampleStart.(queue := ExampleStart.queue[1..]) == ExamplePass0
  {
  }

  /** Marking zombie 0 at the end of its pass. */
  lemma ExampleMark0()
    ensures ExamplePass4.(tracker := ExamplePass4.tracker.(zombies := ExamplePass4.tracker.zombies[0 := ExamplePass4.tracker.zombies[0].(hasMoved := true)])) == ExampleAfter0
  {
  }

  lemma ExampleTurn1()
    ensures ExampleAfter0.Valid() && ExampleAfter0.queue != [] && ExampleAfter0.Turn() == ExampleAfter1
  {
    TurnWithNothingIndexed(ExampleAfter0);
    ExampleWalk1();
  }

  lemma ExampleTurn2()
    ensures ExampleAfter1.Valid() && ExampleAfter1.queue != [] && ExampleAfter1.Turn() == ExampleAfter2
  {
    TurnWithNothingIndexed(ExampleAfter1);
    ExampleWalk2();
  }

  lemma ExampleTurn3()
    ensures ExampleAfter2.Valid() && ExampleAfter2.queue != [] && ExampleAfter2.Turn() == ExampleEnd
  {
    TurnWithNothingIndexed(ExampleAfter2);
    ExampleWalk3();
  }

  lemma ExampleWalk2()
    ensures WalkTurn(ExampleAfter1) == ExampleAfter2
  {
    assert Walk(Grid4, Position(1, 2), ExampleMoves) == Position(3, 2);
    assert ExampleLog1 + WalkLog(2, Grid4, Position(1, 2), ExampleMoves) == ExampleLog2;
  }

  lemma ExampleWalk3()
    ensures WalkTurn(ExampleAfter2) == ExampleEnd
  {
    assert Walk(Grid4, Position(1, 1), ExampleMoves) == Position(3, 1);
    assert ExampleLog2 + WalkLog(3, Grid4, Position(1, 1), ExampleMoves) == ExampleLog3;
  }

  /** The run from each intermediate state ends in `ExampleEnd`. */
  lemma ExampleRunFrom3()
    ensures ExampleAfter2.Valid() && ExampleAfter2.Run() == ExampleEnd
  {
    ExampleTurn3();
  }

  lemma ExampleRunFrom2()
    ensures ExampleAfter1.Valid() && ExampleAfter1.Run() == ExampleEnd
  {
    ExampleTurn2();
    ExampleRunFrom3();
  }

  lemma ExampleRunFrom1()
    ensures ExampleAfter0.Valid() && ExampleAfter0.Run() == ExampleEnd
  {
    ExampleTurn1();
    ExampleRunFrom2();
  }

  lemma ExampleRun()
    ensures ExampleStart.Valid() && ExampleStart.Run() == ExampleEnd
  {
    ExampleTurn0();
    ExampleRunFrom1();
  }

  // The creatures are placed one by one into the tracker holding zombie 0.
  const ExampleZombie0 := [ZombieRec(0, Position(3, 1), false)]

  const ExampleNoCreatures := TrackerState(ExampleZombie0, [], map[])

  lemma ExamplePlaced1()
    ensures PlaceCreatures(ExampleNoCreatures, ExampleCreatures[..1]) ==
      TrackerState(ExampleZombie0, ExampleLive[..1], map[Position(0, 1) := 0])
  {
    PlaceCreaturesSnoc(ExampleNoCreatures, ExampleCreatures, 0);
    assert ExampleCreatures[..0] == [];
  }

  lemma ExamplePlaced2()
    ensures PlaceCreatures(ExampleNoCreatures, ExampleCreatures[..2]) ==
      TrackerState(ExampleZombie0, ExampleLive[..2], map[Position(0, 1) := 0, Position(1, 2) := 1])
  {
    PlaceCreaturesSnoc(ExampleNoCreatures, ExampleCreatures, 1);
    ExamplePlaced1();
  }

  lemma ExamplePlaced3(cps: seq<Position>)
    requires cps == ExampleCreatures
    ensures PlaceCreatures(ExampleNoCreatures, cps) == ExampleStart.tracker
  {
    ExamplePlaced2();
    ExampleAdd3();
  }

  lemma ExampleAdd3()
    ensures TrackerState(ExampleZombie0, ExampleLive[..2], map[Position(0, 1) := 0, Position(1, 2) := 1]).AddCreature(NewCreature(Position(1, 1), true))
      == ExampleStart.tracker
  {
    assert ExampleLive[..2] + [NewCreature(Position(1, 1), true)] == ExampleLive;
  }

  lemma ExampleInitial(cps: seq<Position>)
    requires cps == ExampleCreatures
    ensures Initial(Grid4, Position(3, 1), cps, ExampleMoves) == ExampleStart
  {
    var t := EmptyTracker().CreateZombieAt(Position(3, 1)).0;
    assert t.zombies == [] + ExampleZombie0;
    assert t == ExampleNoCreatures;
    ExamplePlaced3(cps);
  }

  lemma ExampleWalk1()
    ensures WalkTurn(ExampleAfter0) == ExampleAfter1
  {
    assert Walk(Grid4, Position(0, 1), ExampleMoves) == Position(2, 1);
    assert ExampleLog0 + WalkLog(1, Grid4, Position(0, 1), ExampleMoves) == ExampleLog1;
  }
  /** A log of moves only, all by zombie z: no infections. */
  lemma {:induction false} MovesOnlyViews(log: seq<Event>, z: nat)
    requires forall i :: 0 <= i < |log| ==> log[i].ZombieMoved? && log[i].zombie == z
    ensures MovedBy(log) == Repeat(z, |log|) && Spawned(log) == [] && InfectedAt(log) == []
    decreases |log|
  {
    if log != [] {
      var log' := log[..|log| - 1];
      MovesOnlyViews(log', z);
      assert Repeat(z, |log'|) + [z] == Repeat(z, |log|);
    }
  }

  /** The two events of a step that infects. */
  lemma InfectionViews(z: nat, p: Position, n: nat)
    ensures
      var log := [ZombieMoved(z, p), CreatureInfected(z, p, n)];
      MovedBy(log) == [z] && Spawned(log) == [n] && InfectedAt(log) == [p]
  {
    ViewsSnoc([ZombieMoved(z, p)], CreatureInfected(z, p, n));
    assert [ZombieMoved(z, p)] + [CreatureInfected(z, p, n)] == [ZombieMoved(z, p), CreatureInfected(z, p, n)];
  }

  /** Zombie 0's turn: three infections, at (0,1), (1,2) and (1,1), creating zombies 1, 2 and 3. */
  lemma ExampleEvents0()
    ensures MovedBy(ExampleLog0) == [0, 0, 0, 0]
    ensures Spawned(ExampleLog0) == [1, 2, 3]
    ensures InfectedAt(ExampleLog0) == [Position(0, 1), Position(1, 2), Position(1, 1)]
  {
    var a := [ZombieMoved(0, Position(0, 1)), CreatureInfected(0, Position(0, 1), 1)];
    var b := [ZombieMoved(0, Position(0, 2))];
    var c := [ZombieMoved(0, Position(1, 2)), CreatureInfected(0, Position(1, 2), 2)];
    var d := [ZombieMoved(0, Position(1, 1)), CreatureInfected(0, Position(1, 1), 3)];
    assert ExampleLog0 == a + b + c + d;
    InfectionViews(0, Position(0, 1), 1);
    MovesOnlyViews(b, 0);
    InfectionViews(0, Position(1, 2), 2);
    InfectionViews(0, Position(1, 1), 3);
    ViewsAppend(a, b);
    ViewsAppend(a + b, c);
    ViewsAppend(a + b + c, d);
  }

  /**
   * The events of the worked example: 19 in all, every move of zombie k before any
   * move of zombie k + 1, and the three infections in the order (0,1), (1,2), (1,1).
   */
  lemma ExampleEvents()
    ensures |ExampleLog3| == 19
    ensures MovedBy(ExampleLog3) == [0, 0, 0, 0, 1, 1, 1, 1, 2, 2, 2, 2, 3, 3, 3, 3]
    ensures Spawned(ExampleLog3) == [1, 2, 3]
    ensures InfectedAt(ExampleLog3) == [Position(0, 1), Position(1, 2), Position(1, 1)]
  {
    ExampleEvents0();
    WalksAfterFirstTurn(ExampleLog0, ExampleWalkLog1, ExampleWalkLog2, ExampleWalkLog3);
  }

  /**
   * The views of a log whose first turn is followed by three turns of four moves each,
   * by zombies 1, 2 and 3 in that order, none of them infecting.
   */
  lemma WalksAfterFirstTurn(log0: seq<Event>, w1: seq<Event>, w2: seq<Event>, w3: seq<Event>)
    requires |log0| == 7 && MovedBy(log0) == [0, 0, 0, 0] && Spawned(log0) == [1, 2, 3]
    requires |w1| == 4 && forall i :: 0 <= i < |w1| ==> w1[i].ZombieMoved? && w1[i].zombie == 1
    requires |w2| == 4 && forall i :: 0 <= i < |w2| ==> w2[i].ZombieMoved? && w2[i].zombie == 2
    requires |w3| == 4 && forall i :: 0 <= i < |w3| ==> w3[i].ZombieMoved? && w3[i].zombie == 3
    ensures |log0 + w1 + w2 + w3| == 19
    ensures MovedBy(log0 + w1 + w2 + w3) == [0, 0, 0, 0, 1, 1, 1, 1, 2, 2, 2, 2, 3, 3, 3, 3]
    ensures Spawned(log0 + w1 + w2 + w3) == [1, 2, 3]
    ensures InfectedAt(log0 + w1 + w2 + w3) == InfectedAt(log0)
  {
    MovesOnlyViews(w1, 1);
    MovesOnlyViews(w2, 2);
    MovesOnlyViews(w3, 3);
    ViewsAppend(log0, w1);
    ViewsAppend(log0 + w1, w2);
    ViewsAppend(log0 + w1 + w2, w3);
    ExampleMovedBy();
  }

  /** Zombie 0's four moves, then four moves of each zombie it created, in id order. */
  lemma ExampleMovedBy()
    ensures [0, 0, 0, 0] + Repeat(1, 4) + Repeat(2, 4) + Repeat(3, 4) == [0, 0, 0, 0, 1, 1, 1, 1, 2, 2, 2, 2, 3, 3, 3, 3]
  {
  }
  /** The end state of the worked example: the zombies' final cells, and no creature alive. */
  lemma ExampleOutcome()
    ensures ZombiePositions(ExampleEnd.tracker.zombies) == [Position(1, 1), Position(2, 1), Position(3, 2), Position(3, 1)]
    ensures forall i :: 0 <= i < |ExampleEnd.tracker.zombies| ==> ExampleEnd.tracker.zombies[i].id == i && ExampleEnd.tracker.zombies[i].hasMoved
    ensures ExampleEnd.Result() == SimulationResult(ExampleEnd.tracker.zombies, [])
  {
    LivingAllOrNone(ExampleDead);
  }

  /**
   * The worked example, size 4, zombie at (3,1), creatures at (0,1), (1,2), (1,1), moves
   * RDRU: the run ends in `ExampleEnd`, so the zombies end at (1,1), (2,1), (3,2), (3,1),
   * no creature survives, and the infections happen at (0,1), (1,2), (1,1), in that order.
   */
  lemma WorkedExample(cps: seq<Position>)
    requires cps == ExampleCreatures
    ensures Initial(Grid4, Position(3, 1), cps, ExampleMoves).Run() == ExampleEnd
    ensures Simulate(Grid4, Position(3, 1), cps, ExampleMoves) == SimulationResult(ExampleEnd.tracker.zombies, [])
  {
    ExampleInitial(cps);
    ExampleRun();
    ExampleOutcome();
  }

  // ---------------------------------------------------------------------------
  // A lone zombie, and the 1 x 1 grid

  /** With no creatures, the run is zombie 0's walk: it ends where the moves take it, marked as moved. */
  lemma LoneZombie(world: World, start: Position, moves: seq<Direction>)
    ensures Simulate(world, start, [], moves) == SimulationResult([ZombieRec(0, Walk(world, start, moves), true)], [])
  {
    var s := Initial(world, start, [], moves);
    InitialRoster(world, start, [], moves);
    TurnWithNothingIndexed(s);
    var f := WalkTurn(s);
    assert s.Run() == f.Run() == f;
    assert f.tracker.zombies == [ZombieRec(0, start, false)][0 := ZombieRec(0, Walk(world, start, moves), true)];
  }

  /** On a 1 x 1 grid every move wraps back to the only cell. */
  lemma {:induction false} WalkInOneCell(ms: seq<Direction>)
    ensures Walk(World(1), Position(0, 0), ms) == Position(0, 0)
    decreases |ms|
  {
    if ms != [] {
      var p := Move(World(1), Position(0, 0), ms[0]);
      assert IsValid(World(1), p);
      assert p == Position(0, 0);
      WalkInOneCell(ms[1..]);
    }
  }

  /** The 1 x 1 grid: whatever the moves, the single zombie ends where it started. */
  lemma MinimalWorld(moves: seq<Direction>)
    ensures Simulate(World(1), Position(0, 0), [], moves) == SimulationResult([ZombieRec(0, Position(0, 0), true)], [])
  {
    LoneZombie(World(1), Position(0, 0), moves);
    WalkInOneCell(moves);
  }

  // ---------------------------------------------------------------------------
  // Several zombies on one cell: a 4 x 4 grid, zombie at (0,0), creatures at (1,0), (2,0), moves RR

  const CrowdCreatures := [Position(1, 0), Position(2, 0)]
  const CrowdMoves := [Right, Right]

  const CrowdLive := [CreatureRec(Position(1, 0), true, true), CreatureRec(Position(2, 0), true, true)]
  const CrowdDead := [CreatureRec(Position(1, 0), true, false), CreatureRec(Position(2, 0), true, false)]

  const CrowdStart := State(Grid4, CrowdMoves,
    TrackerState([ZombieRec(0, Position(0, 0), false)], CrowdLive, map[Position(1, 0) := 0, Position(2, 0) := 1]),
    [0], [])

  /** Zombie 0's turn: both of its steps infect, creating zombies 1 and 2 at (1,0) and (2,0). */
  const CrowdLog0 := [
    ZombieMoved(0, Position(1, 0)), CreatureInfected(0, Position(1, 0), 1),
    ZombieMoved(0, Position(2, 0)), CreatureInfected(0, Position(2, 0), 2)]

  const CrowdPass1 := State(Grid4, CrowdMoves,
    TrackerState([ZombieRec(0, Position(1, 0), false), ZombieRec(1, Position(1, 0), false)],
                 CrowdLive[0 := CrowdDead[0]], map[Position(2, 0) := 1]),
    [1], CrowdLog0[..2])

  const CrowdPass2 := State(Grid4, CrowdMoves,
    TrackerState([ZombieRec(0, Position(2, 0), false), ZombieRec(1, Position(1, 0), false), ZombieRec(2, Position(2, 0), false)],
                 CrowdDead, map[]),
    [1, 2], CrowdLog0)

  const CrowdAfter0 := CrowdPass2.(tracker := CrowdPass2.tracker.(zombies :=
    [ZombieRec(0, Position(2, 0), true), ZombieRec(1, Position(1, 0), false), ZombieRec(2, Position(2, 0), false)]))

  const CrowdLog1 := CrowdLog0 + [ZombieMoved(1, Position(2, 0)), ZombieMoved(1, Position(3, 0))]

  const CrowdAfter1 := State(Grid4, CrowdMoves,
    TrackerState([ZombieRec(0, Position(2, 0), true), ZombieRec(1, Position(3, 0), true), ZombieRec(2, Position(2, 0), false)],
                 CrowdDead, map[]),
    [2], CrowdLog1)

  const CrowdLog2 := CrowdLog1 + [ZombieMoved(2, Position(3, 0)), ZombieMoved(2, Position(0, 0))]

  const CrowdEnd := State(Grid4, CrowdMoves,
    TrackerState([ZombieRec(0, Position(2, 0), true), ZombieRec(1, Position(3, 0), true), ZombieRec(2, Position(0, 0), true)],
                 CrowdDead, map[]),
    [], CrowdLog2)

  lemma CrowdStep1()
    ensures StepOutcome(CrowdStart.(queue := []), 0, Right) == CrowdPass1
  {
    assert CrowdStart.tracker.index - {Position(1, 0)} == CrowdPass1.tracker.index;
  }

  lemma CrowdStep2()
    ensures StepOutcome(CrowdPass1, 0, Right) == CrowdPass2
  {
    assert CrowdPass1.tracker.index - {Position(2, 0)} == map[];
  }

  /** Zombie 0's pass over RR, from the state it leaves the queue in. */
  lemma CrowdPass()
    ensures CrowdStart.(queue := []).Valid() && CrowdStart.(queue := []).ProcessMoves(0, CrowdMoves) == CrowdPass2
  {
    var s0 := CrowdStart.(queue := []);
    CrowdStep1();
    StepIsOutcome(s0, 0, Right);
    CrowdStep2();
    StepIsOutcome(CrowdPass1, 0, Right);
    assert CrowdMoves[1..] == [Right] && [Right][1..] == [];
  }

  /** Zombie 0's turn: after it, zombies 0 and 2 share the cell (2,0). */
  lemma CrowdTurn0()
    ensures CrowdStart.Valid() && CrowdStart.queue != [] && CrowdStart.Turn() == CrowdAfter0
  {
    assert CrowdStart.(queue := CrowdStart.queue[1..]) == CrowdStart.(queue := []);
    CrowdPass();
    TurnFromPass(CrowdStart, CrowdPass2);
  }

  lemma CrowdWalk1()
    ensures WalkTurn(CrowdAfter0) == CrowdAfter1
  {
    assert Walk(Grid4, Position(1, 0), CrowdMoves) == Position(3, 0);
    assert CrowdLog0 + WalkLog(1, Grid4, Position(1, 0), CrowdMoves) == CrowdLog1;
  }

  lemma CrowdWalk2()
    ensures WalkTurn(CrowdAfter1) == CrowdEnd
  {
    assert Walk(Grid4, Position(2, 0), CrowdMoves) == Position(0, 0);
    assert CrowdLog1 + WalkLog(2, Grid4, Position(2, 0), CrowdMoves) == CrowdLog2;
  }

  lemma CrowdTurn1()
    ensures CrowdAfter0.Valid() && CrowdAfter0.queue != [] && CrowdAfter0.Turn() == CrowdAfter1
  {
    TurnWithNothingIndexed(CrowdAfter0);
    CrowdWalk1();
  }

  lemma CrowdTurn2()
    ensures CrowdAfter1.Valid() && CrowdAfter1.queue != [] && CrowdAfter1.Turn() == CrowdEnd
  {
    TurnWithNothingIndexed(CrowdAfter1);
    CrowdWalk2();
  }

  lemma CrowdRun()
    ensures CrowdStart.Valid() && CrowdStart.Run() == CrowdEnd
  {
    CrowdTurn0();
    CrowdTurn1();
    CrowdTurn2();
    assert CrowdAfter1.Run() == CrowdEnd;
    assert CrowdAfter0.Run() == CrowdEnd;
  }

  // The creatures are placed one by one into the tracker holding zombie 0.
  const CrowdZombie0 := [ZombieRec(0, Position(0, 0), false)]

  const CrowdNoCreatures := TrackerState(CrowdZombie0, [], map[])

  lemma CrowdPlaced1()
    ensures PlaceCreatures(CrowdNoCreatures, CrowdCreatures[..1]) == TrackerState(CrowdZombie0, CrowdLive[..1], map[Position(1, 0) := 0])
  {
    PlaceCreaturesSnoc(CrowdNoCreatures, CrowdCreatures, 0);
    assert CrowdCreatures[..0] == [];
  }

  lemma CrowdAdd2()
    ensures TrackerState(CrowdZombie0, CrowdLive[..1], map[Position(1, 0) := 0]).AddCreature(NewCreature(Position(2, 0), true))
      == CrowdStart.tracker
  {
    assert CrowdLive[..1] + [NewCreature(Position(2, 0), true)] == CrowdLive;
  }

  lemma CrowdPlaced2(cps: seq<Position>)
    requires cps == CrowdCreatures
    ensures PlaceCreatures(CrowdNoCreatures, cps) == CrowdStart.tracker
  {
    PlaceCreaturesSnoc(CrowdNoCreatures, cps, 1);
    assert cps[..2] == cps;
    CrowdPlaced1();
    CrowdAdd2();
  }

  lemma CrowdInitial(cps: seq<Position>)
    requires cps == CrowdCreatures
    ensures Initial(Grid4, Position(0, 0), cps, CrowdMoves) == CrowdStart
  {
    var t := EmptyTracker().CreateZombieAt(Position(0, 0)).0;
    assert t.zombies == [] + CrowdZombie0;
    assert t == CrowdNoCreatures;
    CrowdPlaced2(cps);
  }

  /** The end state of the crowd scenario: three zombies, at (2,0), (3,0) and (0,0), and no creature alive. */
  lemma CrowdOutcome()
    ensures ZombiePositions(CrowdEnd.tracker.zombies) == [Position(2, 0), Position(3, 0), Position(0, 0)]
    ensures CrowdEnd.Result() == SimulationResult(CrowdEnd.tracker.zombies, [])
  {
    LivingAllOrNone(CrowdDead);
  }

  /**
   * Several zombies on one cell: size 4, zombie at (0,0), creatures at (1,0) and (2,0),
   * moves RR. Zombie 0 infects both creatures; zombie 1 then walks from (1,0) to (3,0)
   * and zombie 2 from (2,0) to (0,0), so the zombies end at (2,0), (3,0) and (0,0) and no
   * creature survives.
   */
  lemma CrowdScenario(cps: seq<Position>)
    requires cps == CrowdCreatures
    ensures Initial(Grid4, Position(0, 0), cps, CrowdMoves).Run() == CrowdEnd
    ensures ZombiePositions(CrowdEnd.tracker.zombies) == [Position(2, 0), Position(3, 0), Position(0, 0)]
    ensures Simulate(Grid4, Position(0, 0), cps, CrowdMoves) == SimulationResult(CrowdEnd.tracker.zombies, [])
  {
    CrowdInitial(cps);
    CrowdRun();
    CrowdOutcome();
  }
}
