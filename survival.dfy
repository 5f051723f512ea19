/**
 * Creatures no zombie can reach (src/simulation.py with src/entities.py): a creature
 * placed outside the grid (the start position is never wrapped, but every step lands
 * inside the grid) and a creature whose index entry a later creature at the same position
 * overwrote are never infected; they stay alive to the end and are reported as survivors.
 */
module Survival {
  import opened Wrappers
  import opened Topology
  import opened Entities
  import opened Engine
  import opened EngineProperties

  /**
   * Creature slot k is out of reach: it exists, and every index key naming it is a
   * cell no step can land on.
   */
  predicate OutOfReach(s: State, k: nat)
  {
    k < |s.tracker.creatures| &&
    forall p :: p in s.tracker.index && s.tracker.index[p] == k ==> !IsValid(s.world, p)
  }

  /** A step touches creatures and the index only as `remove_creature_at` at the landing cell does. */
  lemma StepCreatures(s: State, z: nat, d: Direction, r: State)
    requires s.Valid() && z < |s.tracker.zombies| && r == s.Step(z, d)
    ensures
      var t := s.tracker.RemoveCreatureAt(Move(s.world, s.tracker.zombies[z].position, d)).0;
      r.tracker.creatures == t.creatures && r.tracker.index == t.index
  {
  }

  /** A step keeps an out-of-reach creature out of reach and unchanged. */
  lemma StepOutOfReach(s: State, z: nat, d: Direction, r: State, k: nat)
    requires s.Valid() && z < |s.tracker.zombies| && r == s.Step(z, d) && OutOfReach(s, k)
    ensures OutOfReach(r, k) && r.tracker.creatures[k] == s.tracker.creatures[k]
  {
    StepCreatures(s, z, d, r);
  }

  /** So does a whole pass of one zombie. */
  lemma {:induction false} ProcessMovesOutOfReach(s: State, z: nat, ms: seq<Direction>, r: State, k: nat)
    requires s.Valid() && z < |s.tracker.zombies| && r == s.ProcessMoves(z, ms) && OutOfReach(s, k)
    ensures OutOfReach(r, k) && r.tracker.creatures[k] == s.tracker.creatures[k]
    decreases |ms|
  {
    if ms != [] {
      var s1 := s.Step(z, ms[0]);
      StepOutOfReach(s, z, ms[0], s1, k);
      ProcessMovesOutOfReach(s1, z, ms[1..], r, k);
    }
  }

  /** A turn only marks the zombie as moved after its pass: creatures and index are the pass's. */
  lemma TurnCreatures(s: State, f: State)
    requires s.Valid() && s.queue != [] && f == s.Turn()
    ensures
      var r := s.(queue := s.queue[1..]).ProcessMoves(s.queue[0], s.moves);
      f.tracker.creatures == r.tracker.creatures && f.tracker.index == r.tracker.index
  {
  }

  /** And so does a whole run. */
  lemma {:induction false} RunOutOfReach(s: State, k: nat)
    requires s.Valid() && OutOfReach(s, k)
    ensures OutOfReach(s.Run(), k) && s.Run().tracker.creatures[k] == s.tracker.creatures[k]
    decreases s.Measure()
  {
    if s.queue != [] {
      var s1 := s.(queue := s.queue[1..]);
      var r := s1.ProcessMoves(s.queue[0], s.moves);
      ProcessMovesOutOfReach(s1, s.queue[0], s.moves, r, k);
      TurnCreatures(s, s.Turn());
      RunOutOfReach(s.Turn(), k);
    }
  }

  /** Every index key names the last position of `ps` holding it: no later position repeats it. */
  predicate LatestWins(index: map<Position, nat>, ps: seq<Position>)
  {
    forall p, j :: p in index && index[p] < j < |ps| ==> ps[j] != p
  }

  /** Indexing the newest position under its slot keeps the latest entries latest. */
  lemma LatestWinsSnoc(index: map<Position, nat>, ps: seq<Position>)
    requires ps != [] && LatestWins(index, ps[..|ps| - 1])
    requires forall p :: p in index ==> index[p] < |ps| - 1
    ensures LatestWins(index[ps[|ps| - 1] := |ps| - 1], ps)
  {
    var last := |ps| - 1;
    var index' := index[ps[last] := last];
    forall p, j | p in index' && index'[p] < j < |ps|
      ensures ps[j] != p
    {
      if p != ps[last] {
        if j < last {
          assert ps[..last][j] == ps[j];
        }
      }
    }
  }

  /** Under a latest-wins index, a slot whose position recurs later is named by no key. */
  lemma ShadowedNotIndexed(index: map<Position, nat>, ps: seq<Position>, k: nat, j: nat)
    requires LatestWins(index, ps) && forall p :: p in index ==> index[p] < |ps| && ps[index[p]] == p
    requires k < j < |ps| && ps[j] == ps[k]
    ensures forall p :: p in index ==> index[p] != k
  {
  }

  /** After placing `ps` into an empty tracker, a slot whose position recurs later is named by no key. */
  lemma PlacedShadowed(t: TrackerState, ps: seq<Position>, k: nat, j: nat)
    requires t.creatures == [] && t.index == map[]
    requires k < j < |ps| && ps[j] == ps[k]
    ensures |PlaceCreatures(t, ps).creatures| == |ps|
    ensures forall p :: p in PlaceCreatures(t, ps).index ==> PlaceCreatures(t, ps).index[p] != k
  {
    var r := PlaceCreatures(t, ps);
    PlaceCreaturesLatest(t, ps);
    assert forall p :: p in r.index ==> r.index[p] < |ps| && ps[r.index[p]] == p;
    ShadowedNotIndexed(r.index, ps, k, j);
  }

  /** A creature slot that no index key names is out of reach. */
  lemma NotIndexedOutOfReach(s: State, k: nat)
    requires k < |s.tracker.creatures| && forall p :: p in s.tracker.index ==> s.tracker.index[p] != k
    ensures OutOfReach(s, k)
  {
  }

  /** Placing creatures into an empty tracker indexes each position under its last slot. */
  lemma {:induction false} PlaceCreaturesLatest(t: TrackerState, ps: seq<Position>)
    requires t.creatures == [] && t.index == map[]
    ensures LatestWins(PlaceCreatures(t, ps).index, ps)
  {
    if ps != [] {
      var last := |ps| - 1;
      var r0 := PlaceCreatures(t, ps[..last]);
      PlaceCreaturesLatest(t, ps[..last]);
      assert PlaceCreatures(t, ps).index == r0.index[ps[last] := last];
      LatestWinsSnoc(r0.index, ps);
    }
  }

  /** The tracker a run starts from holds one new creature per position, indexed latest-wins. */
  lemma InitialCreatures(world: World, start: Position, creaturePositions: seq<Position>, moves: seq<Direction>)
    ensures
      var t := Initial(world, start, creaturePositions, moves).tracker;
      t.creatures == NewCreatures(creaturePositions) &&
      (forall p :: p in t.index ==> t.index[p] < |creaturePositions| && creaturePositions[t.index[p]] == p) &&
      LatestWins(t.index, creaturePositions)
  {
    var t0 := EmptyTracker().CreateZombieAt(start).0;
    PlaceCreaturesLatest(t0, creaturePositions);
  }

  /**
   * A creature out of reach at the start of a run is, at its end, exactly the creature
   * that was placed, and it is among the reported survivors.
   */
  lemma OutOfReachSurvives(world: World, start: Position, creaturePositions: seq<Position>, moves: seq<Direction>, k: nat)
    requires OutOfReach(Initial(world, start, creaturePositions, moves), k)
    ensures
      var f := Initial(world, start, creaturePositions, moves).Run();
      k < |creaturePositions| && k < |f.tracker.creatures| &&
      f.tracker.creatures[k] == NewCreature(creaturePositions[k], true) &&
      NewCreature(creaturePositions[k], true) in f.Result().survivingCreatures
  {
    var s := Initial(world, start, creaturePositions, moves);
    InitialCreatures(world, start, creaturePositions, moves);
    RunOutOfReach(s, k);
    LivingMembers(s.Run().tracker.creatures);
  }

  /** A creature placed outside the grid is never infected and survives the run. */
  lemma OutsideCreatureSurvives(world: World, start: Position, creaturePositions: seq<Position>, moves: seq<Direction>, k: nat)
    requires k < |creaturePositions| && !IsValid(world, creaturePositions[k])
    ensures
      var f := Initial(world, start, creaturePositions, moves).Run();
      k < |f.tracker.creatures| && f.tracker.creatures[k] == NewCreature(creaturePositions[k], true) &&
      NewCreature(creaturePositions[k], true) in f.Result().survivingCreatures
  {
    InitialCreatures(world, start, creaturePositions, moves);
    OutOfReachSurvives(world, start, creaturePositions, moves, k);
  }

  /**
   * A creature whose position a later creature shares loses its index entry when that
   * one is added: it is never infected and survives the run, alive but unreachable.
   */
  lemma ShadowedCreatureSurvives(world: World, start: Position, creaturePositions: seq<Position>, moves: seq<Direction>, k: nat, j: nat)
    requires k < j < |creaturePositions| && creaturePositions[j] == creaturePositions[k]
    ensures
      var f := Initial(world, start, creaturePositions, moves).Run();
      k < |f.tracker.creatures| && f.tracker.creatures[k] == NewCreature(creaturePositions[k], true) &&
      NewCreature(creaturePositions[k], true) in f.Result().survivingCreatures
  {
    var s := Initial(world, start, creaturePositions, moves);
    PlacedShadowed(EmptyTracker().CreateZombieAt(start).0, creaturePositions, k, j);
    NotIndexedOutOfReach(s, k);
    OutOfReachSurvives(world, start, creaturePositions, moves, k);
  }
}
