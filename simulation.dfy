/**
 * The simulation engine (src/simulation.py), value level: the state of one run, its
 * events, and the step, turn and run functions that the `Simulation` class refines.
 */
module Engine {
  import opened Wrappers
  import opened Topology
  import opened Entities

  /** The two event kinds; each names zombies by id. */
  datatype Event =
    | ZombieMoved(zombie: nat, newPosition: Position)
    | CreatureInfected(zombie: nat, position: Position, newZombie: nat)

  /** `SimulationResult`: the full zombie roster and the living creatures, both in order. */
  datatype SimulationResult = SimulationResult(zombies: seq<ZombieRec>, survivingCreatures: seq<CreatureRec>)
  {
    /** The text `format_output` returns: the zombies line, a newline, the creatures line. */
    function Text(): string
    {
      Join("\n", [PositionsLine(ZombiesHeading, ZombiePositions(zombies)),
                  PositionsLine(CreaturesHeading, CreaturePositions(survivingCreatures))])
    }

    /**
     * `format_output`: appends the zombies line, then the creatures line, to a list of
     * lines; each lists the "(x,y)" texts joined by single spaces, or says "none" for an
     * empty list. The lines are then joined with newlines.
     */
    method FormatOutput() returns (text: string)
      ensures text == Text()
    {
      var lines: seq<string> := [];
      var zombiesLine := FormatLine(ZombiesHeading, ZombiePositions(zombies));
      lines := lines + [zombiesLine];
      var creaturesLine := FormatLine(CreaturesHeading, CreaturePositions(survivingCreatures));
      lines := lines + [creaturesLine];
      assert lines == [zombiesLine, creaturesLine];
      text := Join("\n", lines);
    }
  }

  /** One if/else block of `format_output`: the heading, then the joined positions or "none". */
  method FormatLine(heading: string, ps: seq<Position>) returns (line: string)
    ensures line == PositionsLine(heading, ps)
  {
    if ps != [] {
      var positions := Join(" ", PositionTexts(ps));
      line := heading + ": " + positions;
    } else {
      line := heading + ": " + "none";
    }
  }

  const ZombiesHeading := "zombies' positions"
  const CreaturesHeading := "creatures' positions"

  function ZombiePositions(zs: seq<ZombieRec>): (ps: seq<Position>)
    ensures |ps| == |zs| && forall i :: 0 <= i < |zs| ==> ps[i] == zs[i].position
  {
    seq(|zs|, i requires 0 <= i < |zs| => zs[i].position)
  }

  function CreaturePositions(cs: seq<CreatureRec>): (ps: seq<Position>)
    ensures |ps| == |cs| && forall i :: 0 <= i < |cs| ==> ps[i] == cs[i].position
  {
    seq(|cs|, i requires 0 <= i < |cs| => cs[i].position)
  }

  /** `str(p)` for each position, in order. */
  function PositionTexts(ps: seq<Position>): (r: seq<string>)
    ensures |r| == |ps| && forall i :: 0 <= i < |ps| ==> r[i] == PositionText(ps[i])
  {
    seq(|ps|, i requires 0 <= i < |ps| => PositionText(ps[i]))
  }

  /** One output line: the heading, ": ", then the positions joined by spaces, or "none". */
  function PositionsLine(heading: string, ps: seq<Position>): string
  {
    heading + ": " + (if ps == [] then "none" else Join(" ", PositionTexts(ps)))
  }

  /** `sep.join(parts)`: the parts in order, with `sep` between neighbours. */
  function Join(sep: string, parts: seq<string>): string
  {
    if parts == [] then ""
    else if |parts| == 1 then parts[0]
    else Join(sep, parts[..|parts| - 1]) + sep + parts[|parts| - 1]
  }

  /** The creature records `Simulation.__init__` builds: one living, infectable creature per position. */
  function NewCreatures(ps: seq<Position>): (cs: seq<CreatureRec>)
    ensures |cs| == |ps|
    ensures forall i :: 0 <= i < |ps| ==> cs[i] == NewCreature(ps[i], true)
  {
    seq(|ps|, i requires 0 <= i < |ps| => NewCreature(ps[i], true))
  }

  /** Adds the creatures of `NewCreatures(ps)` one by one, in order. */
  function PlaceCreatures(t: TrackerState, ps: seq<Position>): (r: TrackerState)
    requires t.Valid()
    ensures r.Valid() && r.zombies == t.zombies
    ensures r.creatures == t.creatures + NewCreatures(ps)
    ensures |r.index| <= |t.index| + |ps|
  {
    if ps == [] then t
    else
      var last := |ps| - 1;
      var r0 := PlaceCreatures(t, ps[..last]);
      NewCreaturesSnoc(t.creatures, ps);
      r0.AddCreature(NewCreature(ps[last], true))
  }

  lemma PlaceCreaturesSnoc(t: TrackerState, ps: seq<Position>, i: nat)
    requires t.Valid() && i < |ps|
    ensures PlaceCreatures(t, ps[..i + 1]) == PlaceCreatures(t, ps[..i]).AddCreature(NewCreature(ps[i], true))
  {
    assert ps[..i + 1][..i] == ps[..i];
  }

  lemma NewCreaturesSnoc(cs: seq<CreatureRec>, ps: seq<Position>)
    requires ps != []
    ensures cs + NewCreatures(ps) == cs + NewCreatures(ps[..|ps| - 1]) + [NewCreature(ps[|ps| - 1], true)]
  {
    assert NewCreatures(ps) == NewCreatures(ps[..|ps| - 1]) + [NewCreature(ps[|ps| - 1], true)];
  }

  /**
   * The state of one run: the world, the shared movement sequence, the tracker, the
   * FIFO queue of zombie ids waiting for their turn, and the events emitted so far.
   */
  datatype State = State(world: World, moves: seq<Direction>, tracker: TrackerState, queue: seq<nat>, log: seq<Event>)
  {
    /** Index invariant, sequential ids, and every queued id names a zombie. */
    predicate Valid()
    {
      tracker.Valid() && tracker.IdsSequential() &&
      forall i :: 0 <= i < |queue| ==> queue[i] < |tracker.zombies|
    }

    /** Pending turns plus creatures still reachable: each turn of `run` lowers it by one. */
    function Measure(): nat
    {
      |queue| + |tracker.index|
    }

    /** Zombie z is moved to p and the move is announced. */
    function MoveZombie(z: nat, p: Position): (r: State)
      requires Valid() && z < |tracker.zombies|
      ensures r.Valid() && r.Measure() == Measure()
      ensures |r.tracker.zombies| == |tracker.zombies|
      ensures r.world == world && r.moves == moves
    {
      this.(tracker := tracker.(zombies := tracker.zombies[z := tracker.zombies[z].(position := p)]),
            log := log + [ZombieMoved(z, p)])
    }

    /**
     * A creature at p has just been infected by zombie z: a new zombie with the next
     * id is created at p, queued last, and announced after the move event.
     */
    function Spawn(z: nat, p: Position): (r: State)
      requires Valid()
      ensures r.Valid() && r.Measure() == |queue| + 1 + |tracker.index|
      ensures |r.tracker.zombies| == |tracker.zombies| + 1 && r.tracker.index == tracker.index
      ensures r.world == world && r.moves == moves
    {
      var (t, nz) := tracker.CreateZombieAt(p);
      this.(tracker := t, queue := queue + [nz], log := log + [CreatureInfected(z, p, nz)])
    }

    /**
     * Zombie z has landed on p: if the creature indexed at p is infected, it is
     * replaced by a new zombie (`Spawn`).
     */
    function Land(z: nat, p: Position): (r: State)
      requires Valid()
      ensures r.Valid() && r.Measure() == Measure()
      ensures |r.tracker.zombies| + |r.tracker.index| == |tracker.zombies| + |tracker.index|
      ensures |r.tracker.zombies| >= |tracker.zombies|
      ensures r.world == world && r.moves == moves
    {
      var (t, removed) := tracker.RemoveCreatureAt(p);
      if removed.Some? then this.(tracker := t).Spawn(z, p) else this.(tracker := t)
    }

    /** One iteration of `_process_zombie`'s loop: zombie z steps once in direction d, wrapping. */
    function Step(z: nat, d: Direction): (r: State)
      requires Valid() && z < |tracker.zombies|
      ensures r.Valid() && r.Measure() == Measure()
      ensures |r.tracker.zombies| + |r.tracker.index| == |tracker.zombies| + |tracker.index|
      ensures |r.tracker.zombies| >= |tracker.zombies|
      ensures r.world == world && r.moves == moves
    {
      var p := Move(world, tracker.zombies[z].position, d);
      MoveZombie(z, p).Land(z, p)
    }

    /** The loop of `_process_zombie` over the remaining directions `ms`. */
    function ProcessMoves(z: nat, ms: seq<Direction>): (r: State)
      requires Valid() && z < |tracker.zombies|
      ensures r.Valid() && r.Measure() == Measure()
      ensures |r.tracker.zombies| + |r.tracker.index| == |tracker.zombies| + |tracker.index|
      ensures |r.tracker.zombies| >= |tracker.zombies|
      ensures r.world == world && r.moves == moves
      decreases |ms|
    {
      if ms == [] then this else Step(z, ms[0]).ProcessMoves(z, ms[1..])
    }

    /** `_process_zombie`: the whole shared sequence, then the zombie is marked as moved. */
    function ProcessZombie(z: nat): (r: State)
      requires Valid() && z < |tracker.zombies|
      ensures r.Valid() && r.Measure() == Measure()
      ensures |r.tracker.zombies| + |r.tracker.index| == |tracker.zombies| + |tracker.index|
      ensures r.world == world && r.moves == moves
    {
      var s := ProcessMoves(z, moves);
      s.(tracker := s.tracker.(zombies := s.tracker.zombies[z := s.tracker.zombies[z].(hasMoved := true)]))
    }

    /**
     * `run`: dequeue the front zombie and give it its whole turn, until the queue is
     * empty. Each iteration lowers `Measure` by exactly one, so the run terminates.
     */
    function Run(): (r: State)
      requires Valid()
      ensures r.Valid() && r.queue == []
      ensures |r.tracker.zombies| + |r.tracker.index| == |tracker.zombies| + |tracker.index|
      ensures r.world == world && r.moves == moves
      decreases Measure()
    {
      if queue == [] then this else Turn().Run()
    }

    /** One iteration of `run`: the front zombie leaves the queue and takes its whole turn. */
    function Turn(): (r: State)
      requires Valid() && queue != []
      ensures r.Valid() && r.Measure() == Measure() - 1
      ensures |r.tracker.zombies| + |r.tracker.index| == |tracker.zombies| + |tracker.index|
      ensures r.world == world && r.moves == moves
    {
      this.(queue := queue[1..]).ProcessZombie(queue[0])
    }

    /** The snapshot `run` returns. */
    function Result(): SimulationResult
    {
      SimulationResult(tracker.zombies, tracker.LivingCreatures())
    }
  }

  /**
   * `Simulation.__init__` once the movement string is parsed: zombie 0 at the start
   * position (not wrapped) is queued, then one creature per position is placed.
   */
  function Initial(world: World, start: Position, creaturePositions: seq<Position>, moves: seq<Direction>): (s: State)
    ensures s.Valid()
    ensures s.Measure() <= 1 + |creaturePositions|
  {
    var (t, z) := EmptyTracker().CreateZombieAt(start);
    State(world, moves, PlaceCreatures(t, creaturePositions), [z], [])
  }

  /** A whole run from its configuration to its result. */
  function Simulate(world: World, start: Position, creaturePositions: seq<Position>, moves: seq<Direction>): SimulationResult
  {
    Initial(world, start, creaturePositions, moves).Run().Result()
  }

  /** The ids of a queue of zombies, front first. */
  function Ids(zs: seq<Zombie>): (r: seq<nat>)
    ensures |r| == |zs| && forall i :: 0 <= i < |zs| ==> r[i] == zs[i].id
  {
    seq(|zs|, i requires 0 <= i < |zs| => zs[i].id)
  }

  /** `Simulation`: the world, the parsed shared movement sequence, the tracker and the FIFO queue. */
  class Simulation {
    const world: World
    const movementSequence: seq<Direction>
    const entities: EntityTracker
    var queue: seq<Zombie>
    /** The events delivered to the handler so far. */
    ghost var log: seq<Event>

    /**
     * The tracker's invariant holds, zombie ids are their roster slots, and every queued
     * zombie is the rostered zombie with its id.
     */
    ghost predicate Valid()
      reads this, entities, entities.zombies, entities.creatures
    {
      entities.Valid() &&
      (forall i :: 0 <= i < |entities.zombies| ==> entities.zombies[i].id == i) &&
      forall i :: 0 <= i < |queue| ==>
        queue[i].id < |entities.zombies| && entities.zombies[queue[i].id] == queue[i]
    }

    ghost function Value(): State
      reads this, entities, entities.zombies, entities.creatures
    {
      State(world, movementSequence, entities.Value(), Ids(queue), log)
    }

    /**
     * `Simulation.__init__`, given the already parsed movement sequence: the first
     * zombie is created and queued, then the creatures are placed in order.
     */
    constructor (world: World, initialZombiePosition: Position, creaturePositions: seq<Position>, movementSequence: seq<Direction>)
      ensures Valid() && Value() == Initial(world, initialZombiePosition, creaturePositions, movementSequence)
      ensures fresh(entities) && (forall i :: 0 <= i < |entities.zombies| ==> fresh(entities.zombies[i])) && (forall i :: 0 <= i < |entities.creatures| ==> fresh(entities.creatures[i]))
    {
      this.world := world;
      this.movementSequence := movementSequence;
      entities := new EntityTracker();
      queue := [];
      log := [];
      new;
      AddFirstZombie(initialZombiePosition);
      ghost var roster := entities.zombies;
      assert forall i :: 0 <= i < |roster| ==> fresh(roster[i]);
      AddCreatures(creaturePositions);
      assert entities.zombies == roster;
    }

    /** The first zombie of `__init__`: created at the start position (not wrapped) and queued. */
    method AddFirstZombie(p: Position)
      requires Valid() && entities.Value() == EmptyTracker() && entities.creatures == [] && queue == []
      modifies this`queue, entities
      ensures Valid() && entities.creatures == [] && |entities.zombies| == 1 && fresh(entities.zombies[0])
      ensures Value() == old(Value()).(tracker := EmptyTracker().CreateZombieAt(p).0, queue := [0])
    {
      var first := entities.CreateZombieAt(p);
      Enqueue(first);
    }

    /** The loop of `__init__` that places one basic creature per position, in order. */
    method AddCreatures(creaturePositions: seq<Position>)
      requires Valid() && entities.creatures == []
      modifies entities
      ensures Valid() && entities.zombies == old(entities.zombies)
      ensures Value() == old(Value()).(tracker := PlaceCreatures(old(Value()).tracker, creaturePositions))
      ensures forall i :: 0 <= i < |entities.creatures| ==> fresh(entities.creatures[i])
    {
      ghost var t0 := entities.Value();
      for i := 0 to |creaturePositions|
        invariant entities.Valid() && entities.zombies == old(entities.zombies)
        invariant entities.Value() == PlaceCreatures(t0, creaturePositions[..i])
        invariant forall j :: 0 <= j < |entities.creatures| ==> fresh(entities.creatures[j])
      {
        ghost var placed := entities.creatures;
        var creature := PlaceCreature(creaturePositions[i]);
        forall j | 0 <= j < |entities.creatures|
          ensures fresh(entities.creatures[j])
        {
          if j < |placed| {
            assert entities.creatures[j] == placed[j];
          } else {
            assert entities.creatures[j] == creature;
          }
        }
        PlaceCreaturesSnoc(t0, creaturePositions, i);
      }
      assert creaturePositions[..|creaturePositions|] == creaturePositions;
    }

    /** One iteration of that loop: a new basic creature at `p` joins the tracker. */
    method PlaceCreature(p: Position) returns (creature: Creature)
      requires entities.Valid()
      modifies entities
      ensures entities.Valid() && fresh(creature)
      ensures entities.zombies == old(entities.zombies) && entities.creatures == old(entities.creatures) + [creature]
      ensures entities.Value() == old(entities.Value()).AddCreature(NewCreature(p, true))
    {
      ghost var before := entities.Value();
      creature := new Creature(p, true);
      assert entities.Value() == before;
      entities.AddCreature(creature);
    }

    /** `_emit`: the event reaches the handler, in emission order. */
    ghost method Emit(e: Event)
      requires Valid()
      modifies this`log
      ensures Valid() && log == old(log) + [e]
      ensures Value() == old(Value()).(log := old(Value()).log + [e])
    {
      log := log + [e];
    }

    /** Appending a rostered zombie to the back of the queue. */
    method Enqueue(z: Zombie)
      requires Valid() && z.id < |entities.zombies| && entities.zombies[z.id] == z
      modifies this`queue
      ensures Valid() && queue == old(queue) + [z]
      ensures Value() == old(Value()).(queue := old(Value()).queue + [z.id])
    {
      queue := queue + [z];
      assert Ids(queue) == old(Ids(queue)) + [z.id];
    }

    /** The zombie takes one step in direction `d`, and the move is announced. */
    method MoveZombie(z: Zombie, d: Direction) returns (newPosition: Position)
      requires Valid() && Value().Valid() && z.id < |entities.zombies| && entities.zombies[z.id] == z
      modifies z`position, this`log
      ensures Valid() && newPosition == Move(world, old(z.position), d)
      ensures Value() == old(Value()).MoveZombie(z.id, newPosition)
    {
      newPosition := Move(world, z.position, d);
      z.MoveTo(newPosition);
      Emit(ZombieMoved(z.id, newPosition));
    }

    /** A creature at `newPosition` was infected by `z`: create, queue and announce the new zombie. */
    method Spawn(z: Zombie, newPosition: Position)
      requires Valid() && Value().Valid() && z.id < |entities.zombies| && entities.zombies[z.id] == z
      modifies this, entities
      ensures Valid() && entities.creatures == old(entities.creatures)
      ensures z.id < |entities.zombies| && entities.zombies[z.id] == z
      ensures forall i :: 0 <= i < |entities.zombies| ==> entities.zombies[i] in old(entities.zombies) || fresh(entities.zombies[i])
      ensures Value() == old(Value()).Spawn(z.id, newPosition)
    {
      ghost var s := Value();
      var newZombie := entities.CreateZombieAt(newPosition);
      assert Value() == s.(tracker := entities.Value());
      Enqueue(newZombie);
      Emit(CreatureInfected(z.id, newPosition, newZombie.id));
    }

    /** The zombie has landed on `newPosition`: infect the creature there, if any. */
    method Land(z: Zombie, newPosition: Position)
      requires Valid() && Value().Valid() && z.id < |entities.zombies| && entities.zombies[z.id] == z
      modifies this, entities, entities.creatures
      ensures Valid() && entities.creatures == old(entities.creatures)
      ensures z.id < |entities.zombies| && entities.zombies[z.id] == z
      ensures forall i :: 0 <= i < |entities.zombies| ==> entities.zombies[i] in old(entities.zombies) || fresh(entities.zombies[i])
      ensures Value() == old(Value()).Land(z.id, newPosition)
    {
      ghost var s := Value();
      var creature := entities.RemoveCreatureAt(newPosition);
      assert Value() == s.(tracker := s.tracker.RemoveCreatureAt(newPosition).0);
      if creature != null {
        Spawn(z, newPosition);
      }
    }

    /** One iteration of `_process_zombie`'s loop for zombie `z` and direction `d`. */
    method Step(z: Zombie, d: Direction)
      requires Valid() && Value().Valid() && z.id < |entities.zombies| && entities.zombies[z.id] == z
      modifies this, entities, entities.zombies, entities.creatures
      ensures Valid() && entities.creatures == old(entities.creatures)
      ensures z.id < |entities.zombies| && entities.zombies[z.id] == z
      ensures forall i :: 0 <= i < |entities.zombies| ==> entities.zombies[i] in old(entities.zombies) || fresh(entities.zombies[i])
      ensures Value() == old(Value()).Step(z.id, d)
    {
      var newPosition := MoveZombie(z, d);
      Land(z, newPosition);
    }

    /** `_process_zombie`: the zombie walks the whole shared sequence, then is marked as moved. */
    method ProcessZombie(z: Zombie)
      requires Valid() && Value().Valid() && z.id < |entities.zombies| && entities.zombies[z.id] == z
      modifies this, entities, entities.zombies, entities.creatures
      ensures Valid() && entities.creatures == old(entities.creatures)
      ensures forall i :: 0 <= i < |entities.zombies| ==> entities.zombies[i] in old(entities.zombies) || fresh(entities.zombies[i])
      ensures Value() == old(Value()).ProcessZombie(z.id)
    {
      for i := 0 to |movementSequence|
        invariant Valid() && Value().Valid() && z.id < |entities.zombies| && entities.zombies[z.id] == z
        invariant entities.creatures == old(entities.creatures)
        invariant forall i :: 0 <= i < |entities.zombies| ==> entities.zombies[i] in old(entities.zombies) || fresh(entities.zombies[i])
        invariant Value().ProcessMoves(z.id, movementSequence[i..]) == old(Value()).ProcessMoves(z.id, movementSequence)
      {
        Step(z, movementSequence[i]);
        assert movementSequence[i..][1..] == movementSequence[i + 1..];
      }
      MarkMoved(z);
    }

    /** The end of `_process_zombie`: the zombie's turn is over. */
    method MarkMoved(z: Zombie)
      requires Valid() && Value().Valid() && z.id < |entities.zombies| && entities.zombies[z.id] == z
      modifies z`hasMoved
      ensures Valid()
      ensures Value() == old(Value()).(tracker := old(Value()).tracker.(zombies := old(Value()).tracker.zombies[z.id := z.Rec()]))
      ensures z.Rec() == old(z.Rec()).(hasMoved := true)
    {
      z.hasMoved := true;
    }

    /**
     * `run`: zombies take their whole turns in queue order until the queue is empty;
     * the result lists every zombie and the surviving creatures.
     */
    method Run() returns (result: SimulationResult)
      requires Valid() && Value().Valid()
      modifies this, entities, entities.zombies, entities.creatures
      ensures Valid() && Value() == old(Value()).Run()
      ensures result == Value().Result()
    {
      while queue != []
        invariant Valid() && Value().Valid()
        invariant entities.creatures == old(entities.creatures)
        invariant forall i :: 0 <= i < |entities.zombies| ==> entities.zombies[i] in old(entities.zombies) || fresh(entities.zombies[i])
        invariant Value().Run() == old(Value()).Run()
        decreases Value().Measure()
      {
        TakeTurn();
      }
      result := Outcome();
    }

    /** One iteration of `run`: the front zombie leaves the queue and takes its whole turn. */
    method TakeTurn()
      requires Valid() && Value().Valid() && queue != []
      modifies this, entities, entities.zombies, entities.creatures
      ensures Valid() && Value().Valid() && entities.creatures == old(entities.creatures)
      ensures forall i :: 0 <= i < |entities.zombies| ==> entities.zombies[i] in old(entities.zombies) || fresh(entities.zombies[i])
      ensures Value() == old(Value()).Turn()
    {
      var zombie := Dequeue();
      ProcessZombie(zombie);
    }

    /** The `SimulationResult` of the current state: every zombie, and the living creatures. */
    function Outcome(): (r: SimulationResult)
      reads this, entities, entities.zombies, entities.creatures
      ensures r == Value().Result()
    {
      SimulationResult(ZombieRecs(entities.zombies), CreatureRecs(entities.LivingCreatures()))
    }

    /** `popleft`: the front zombie leaves the queue. */
    method Dequeue() returns (z: Zombie)
      requires Valid() && Value().Valid() && queue != []
      modifies this`queue
      ensures Valid() && Value().Valid() && z.id < |entities.zombies| && entities.zombies[z.id] == z
      ensures z == old(queue)[0] && queue == old(queue)[1..]
      ensures Value() == old(Value()).(queue := old(Value()).queue[1..])
    {
      z := queue[0];
      queue := queue[1..];
      assert Ids(queue) == old(Ids(queue))[1..];
    }
  }

  /**
   * Building a `Simulation` from the raw movement string and running it. The string is
   * parsed before anything else exists, so the first illegal character fails the run with
   * no zombie, creature or queue created; otherwise the run's result is the specified one.
   */
  method RunSimulation(world: World, start: Position, creaturePositions: seq<Position>, movementString: string)
    returns (r: Result<SimulationResult, ConfigError>)
    ensures r.Success? <==> forall i :: 0 <= i < |movementString| ==> IsLegal(movementString[i])
    ensures r.Success? ==> r.value == Simulate(world, start, creaturePositions, DirectionsIn(movementString))
    ensures r.Failure? ==>
      exists k :: 0 <= k < |movementString| && !IsLegal(movementString[k]) &&
        r.error == InvalidMove(ToUpper(movementString[k])) &&
        forall i :: 0 <= i < k ==> IsLegal(movementString[i])
  {
    var moves := ParseDirections(movementString);
    if moves.Failure? {
      return Failure(moves.error);
    }
    var simulation := new Simulation(world, start, creaturePositions, moves.value);
    var result := simulation.Run();
    return Success(result);
  }
}
