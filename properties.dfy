/**
 * What a run of the engine guarantees (src/simulation.py): zombies take their turns in
 * id order, each turn is exactly one move event per direction, every infection is
 * announced right after the move that caused it, the roster grows by one zombie per
 * infection, creatures no step can reach survive, and the regression scenarios of the
 * test suite come out as recorded.
 */
module EngineProperties {
  import opened Wrappers
  import opened Topology
  import opened Entities
  import opened Engine

  // ---------------------------------------------------------------------------
  // Views of the event log

  /** The id of the zombie behind each `ZombieMoved` event, in emission order. */
  function MovedBy(log: seq<Event>): (r: seq<nat>)
    ensures |r| <= |log|
  {
    if log == [] then []
    else
      var e := log[|log| - 1];
      MovedBy(log[..|log| - 1]) + (if e.ZombieMoved? then [e.zombie] else [])
  }

  /** The id of the zombie created by each `CreatureInfected` event, in emission order. */
  function Spawned(log: seq<Event>): (r: seq<nat>)
    ensures |r| <= |log|
  {
    if log == [] then []
    else
      var e := log[|log| - 1];
      Spawned(log[..|log| - 1]) + (if e.CreatureInfected? then [e.newZombie] else [])
  }

  /** The landing position of each `CreatureInfected` event, in emission order. */
  function InfectedAt(log: seq<Event>): (r: seq<Position>)
    ensures |r| <= |log|
  {
    if log == [] then []
    else
      var e := log[|log| - 1];
      InfectedAt(log[..|log| - 1]) + (if e.CreatureInfected? then [e.position] else [])
  }

  /** Every infection event comes right after the move of the same zombie onto the same cell. */
  predicate WellPaired(log: seq<Event>)
  {
    forall i :: 0 <= i < |log| && log[i].CreatureInfected? ==>
      i > 0 && log[i - 1] == ZombieMoved(log[i].zombie, log[i].position)
  }

  lemma ViewsSnoc(log: seq<Event>, e: Event)
    ensures MovedBy(log + [e]) == MovedBy(log) + (if e.ZombieMoved? then [e.zombie] else [])
    ensures Spawned(log + [e]) == Spawned(log) + (if e.CreatureInfected? then [e.newZombie] else [])
    ensures InfectedAt(log + [e]) == InfectedAt(log) + (if e.CreatureInfected? then [e.position] else [])
  {
    assert (log + [e])[..|log|] == log;
  }

  /** The views of a concatenated log are the concatenations of the views. */
  lemma {:induction false} ViewsAppend(a: seq<Event>, b: seq<Event>)
    ensures MovedBy(a + b) == MovedBy(a) + MovedBy(b)
    ensures Spawned(a + b) == Spawned(a) + Spawned(b)
    ensures InfectedAt(a + b) == InfectedAt(a) + InfectedAt(b)
    decreases |b|
  {
    if b == [] {
      assert a + b == a;
    } else {
      var b' := b[..|b| - 1];
      var e := b[|b| - 1];
      assert a + b == (a + b') + [e];
      assert b == b' + [e];
      ViewsAppend(a, b');
      ViewsSnoc(a + b', e);
      ViewsSnoc(b', e);
    }
  }

  // ---------------------------------------------------------------------------
  // Id sequences

  /** `m` copies of the id `z`. */
  function Repeat(z: nat, m: nat): (r: seq<nat>)
    ensures |r| == m && forall i :: 0 <= i < m ==> r[i] == z
  {
    seq(m, _ => z)
  }

  /** The ids lo, lo + 1, ..., hi - 1. */
  function Range(lo: nat, hi: nat): (r: seq<nat>)
    requires lo <= hi
    ensures |r| == hi - lo && forall i :: 0 <= i < hi - lo ==> r[i] == lo + i
  {
    seq(hi - lo, i => lo + i)
  }

  lemma RangeAppend(lo: nat, mid: nat, hi: nat)
    requires lo <= mid <= hi
    ensures Range(lo, mid) + Range(mid, hi) == Range(lo, hi)
  {
  }

  /** Extending `a + Range(lo, mid)` by `Range(mid, hi)` gives `a + Range(lo, hi)`. */
  lemma ExtendRange(a: seq<nat>, lo: nat, mid: nat, hi: nat)
    requires lo <= mid <= hi
    ensures a + Range(lo, mid) + Range(mid, hi) == a + Range(lo, hi)
  {
    RangeAppend(lo, mid, hi);
    assert a + Range(lo, mid) + Range(mid, hi) == a + (Range(lo, mid) + Range(mid, hi));
  }

  /** Appending nothing, or the single id n, as a range. */
  lemma AppendRangeOne(a: seq<nat>, n: nat)
    ensures a + Range(n, n) == a
    ensures a + Range(n, n + 1) == a + [n]
  {
    assert Range(n, n + 1) == [n];
  }

  /** Dropping the first id of a range. */
  lemma RangeTail(q: seq<nat>, lo: nat, hi: nat)
    requires lo < hi && q == Range(lo, hi)
    ensures q[1..] == Range(lo + 1, hi)
  {
  }

  /** The queue and the created ids after a turn: the front id leaves, the new ids join at the back. */
  lemma RangeAfterTurn(q: seq<nat>, sp: seq<nat>, q': seq<nat>, sp': seq<nat>, done: nat, n: nat, n2: nat)
    requires 1 <= n && done < n <= n2 && q == Range(done, n) && sp == Range(1, n)
    requires q' == q[1..] + Range(n, n2) && sp' == sp + Range(n, n2)
    ensures q' == Range(done + 1, n2) && sp' == Range(1, n2)
  {
    RangeTail(q, done, n);
    RangeAppend(done + 1, n, n2);
    RangeAppend(1, n, n2);
  }

  /** Extending `a + [z]` by `Repeat(z, k)` gives `a + Repeat(z, k + 1)`. */
  lemma ExtendRepeat(a: seq<nat>, z: nat, k: nat)
    ensures a + [z] + Repeat(z, k) == a + Repeat(z, k + 1)
  {
    assert [z] + Repeat(z, k) == Repeat(z, k + 1);
    assert a + [z] + Repeat(z, k) == a + ([z] + Repeat(z, k));
  }

  /** The move ids of k whole turns of m moves each: m copies of 0, then m of 1, up to k - 1. */
  function Turns(k: nat, m: nat): (r: seq<nat>)
    ensures |r| == k * m
  {
    if k == 0 then [] else Turns(k - 1, m) + Repeat(k - 1, m)
  }

  /** Position i of the turn sequence belongs to zombie i / m: turns never interleave. */
  lemma {:induction false} TurnsIndex(k: nat, m: nat)
    requires m > 0
    ensures forall i :: 0 <= i < k * m ==> Turns(k, m)[i] == i / m
  {
    if k > 0 {
      TurnsIndex(k - 1, m);
      forall i | (k - 1) * m <= i < k * m
        ensures Turns(k, m)[i] == i / m
      {
        DivInBlock(i, k - 1, m);
      }
    }
  }

  lemma DivInBlock(i: int, q: int, m: int)
    requires m > 0 && q * m <= i < q * m + m
    ensures i / m == q
  {
    var d := i / m;
    assert (d - q) * m == (i - i % m) - q * m;
    SmallMultiple(d - q, m);
  }

  lemma DivMonotone(i: nat, j: nat, m: nat)
    requires m > 0 && i <= j
    ensures i / m <= j / m
  {
    if i / m > j / m {
      MulMono(j / m + 1, i / m, m);
    }
  }

  // ---------------------------------------------------------------------------
  // One step, one pass over the moves

  /**
   * One step of zombie z: the move event, then, exactly when the creature indexed at the
   * landing cell is infectable, a new zombie with the next id at that cell, queued last
   * and announced right after the move.
   */
  lemma StepEffect(s: State, z: nat, d: Direction)
    requires s.Valid() && z < |s.tracker.zombies|
    ensures
      var n := |s.tracker.zombies|;
      var p := Move(s.world, s.tracker.zombies[z].position, d);
      var r := s.Step(z, d);
      var moved := s.tracker.zombies[z := s.tracker.zombies[z].(position := p)];
      var infects := p in s.tracker.index && s.tracker.creatures[s.tracker.index[p]].infectable;
      (infects ==>
        r.tracker.zombies == moved + [ZombieRec(n, p, false)] && r.queue == s.queue + [n] &&
        r.log == s.log + [ZombieMoved(z, p), CreatureInfected(z, p, n)]) &&
      (!infects ==>
        r.tracker.zombies == moved && r.queue == s.queue && r.log == s.log + [ZombieMoved(z, p)])
  {
  }

  /** The views after a move event alone. */
  lemma LogMove(log: seq<Event>, z: nat, p: Position)
    ensures MovedBy(log + [ZombieMoved(z, p)]) == MovedBy(log) + [z]
    ensures Spawned(log + [ZombieMoved(z, p)]) == Spawned(log)
    ensures WellPaired(log) ==> WellPaired(log + [ZombieMoved(z, p)])
  {
    ViewsSnoc(log, ZombieMoved(z, p));
  }

  /** The views after a move event and the infection it caused. */
  lemma LogInfection(log: seq<Event>, z: nat, p: Position, n: nat)
    ensures MovedBy(log + [ZombieMoved(z, p), CreatureInfected(z, p, n)]) == MovedBy(log) + [z]
    ensures Spawned(log + [ZombieMoved(z, p), CreatureInfected(z, p, n)]) == Spawned(log) + [n]
    ensures WellPaired(log) ==> WellPaired(log + [ZombieMoved(z, p), CreatureInfected(z, p, n)])
  {
    var m := ZombieMoved(z, p);
    var c := CreatureInfected(z, p, n);
    var log' := log + [m, c];
    assert log' == log + [m] + [c];
    ViewsSnoc(log, m);
    ViewsSnoc(log + [m], c);
    if WellPaired(log) {
      forall i | 0 <= i < |log'| && log'[i].CreatureInfected?
        ensures i > 0 && log'[i - 1] == ZombieMoved(log'[i].zombie, log'[i].position)
      {
        if i < |log| {
          assert log'[i] == log[i] && log'[i - 1] == log[i - 1];
        }
      }
    }
  }

  /** A step queues and announces exactly the zombies it created, in id order. */
  lemma StepQueue(s: State, z: nat, d: Direction, r: State)
    requires s.Valid() && z < |s.tracker.zombies| && r == s.Step(z, d)
    ensures |s.tracker.zombies| <= |r.tracker.zombies|
    ensures r.queue == s.queue + Range(|s.tracker.zombies|, |r.tracker.zombies|)
    ensures Spawned(r.log) == Spawned(s.log) + Range(|s.tracker.zombies|, |r.tracker.zombies|)
  {
    var n := |s.tracker.zombies|;
    var p := Move(s.world, s.tracker.zombies[z].position, d);
    StepEffect(s, z, d);
    AppendRangeOne(s.queue, n);
    AppendRangeOne(Spawned(s.log), n);
    if |r.tracker.zombies| == n {
      LogMove(s.log, z, p);
    } else {
      LogInfection(s.log, z, p, n);
    }
  }

  /** A step is one move event of z, and keeps every infection right after its move. */
  lemma StepMoved(s: State, z: nat, d: Direction, r: State)
    requires s.Valid() && z < |s.tracker.zombies| && r == s.Step(z, d)
    ensures MovedBy(r.log) == MovedBy(s.log) + [z]
    ensures WellPaired(s.log) ==> WellPaired(r.log)
  {
    var n := |s.tracker.zombies|;
    var p := Move(s.world, s.tracker.zombies[z].position, d);
    StepEffect(s, z, d);
    if |r.tracker.zombies| == n {
      LogMove(s.log, z, p);
    } else {
      LogInfection(s.log, z, p, n);
    }
  }

  /** A step changes no zombie's record but z's position. */
  lemma StepKeepsRoster(s: State, z: nat, d: Direction, r: State)
    requires s.Valid() && z < |s.tracker.zombies| && r == s.Step(z, d)
    ensures |s.tracker.zombies| <= |r.tracker.zombies|
    ensures forall i :: 0 <= i < |s.tracker.zombies| && i != z ==> r.tracker.zombies[i] == s.tracker.zombies[i]
    ensures r.tracker.zombies[z].hasMoved == s.tracker.zombies[z].hasMoved
  {
    StepEffect(s, z, d);
  }

  /** The zombie a step creates has not moved yet. */
  lemma StepNewUnmoved(s: State, z: nat, d: Direction, r: State)
    requires s.Valid() && z < |s.tracker.zombies| && r == s.Step(z, d)
    ensures forall i :: |s.tracker.zombies| <= i < |r.tracker.zombies| ==> !r.tracker.zombies[i].hasMoved
  {
    StepEffect(s, z, d);
  }

  /** A pass of zombie z over ms queues and announces the zombies it created, in id order. */
  lemma {:induction false} ProcessMovesQueue(s: State, z: nat, ms: seq<Direction>, r: State)
    requires s.Valid() && z < |s.tracker.zombies| && r == s.ProcessMoves(z, ms)
    ensures |s.tracker.zombies| <= |r.tracker.zombies|
    ensures r.queue == s.queue + Range(|s.tracker.zombies|, |r.tracker.zombies|)
    ensures Spawned(r.log) == Spawned(s.log) + Range(|s.tracker.zombies|, |r.tracker.zombies|)
    decreases |ms|
  {
    if ms != [] {
      var s1 := s.Step(z, ms[0]);
      StepQueue(s, z, ms[0], s1);
      ProcessMovesQueue(s1, z, ms[1..], r);
      ExtendRange(s.queue, |s.tracker.zombies|, |s1.tracker.zombies|, |r.tracker.zombies|);
      ExtendRange(Spawned(s.log), |s.tracker.zombies|, |s1.tracker.zombies|, |r.tracker.zombies|);
    }
  }

  /** A pass of zombie z over ms is one move event of z per direction, each infection right after its move. */
  lemma {:induction false} ProcessMovesMoved(s: State, z: nat, ms: seq<Direction>, r: State)
    requires s.Valid() && z < |s.tracker.zombies| && r == s.ProcessMoves(z, ms)
    ensures MovedBy(r.log) == MovedBy(s.log) + Repeat(z, |ms|)
    ensures WellPaired(s.log) ==> WellPaired(r.log)
    decreases |ms|
  {
    if ms != [] {
      var s1 := s.Step(z, ms[0]);
      StepMoved(s, z, ms[0], s1);
      ProcessMovesMoved(s1, z, ms[1..], r);
      ExtendRepeat(MovedBy(s.log), z, |ms| - 1);
    }
  }

  /** During its pass, only zombie z's record changes, and z's flag does not. */
  lemma {:induction false} ProcessMovesKeepsRoster(s: State, z: nat, ms: seq<Direction>, r: State)
    requires s.Valid() && z < |s.tracker.zombies| && r == s.ProcessMoves(z, ms)
    ensures |s.tracker.zombies| <= |r.tracker.zombies|
    ensures forall i :: 0 <= i < |s.tracker.zombies| && i != z ==> r.tracker.zombies[i] == s.tracker.zombies[i]
    ensures r.tracker.zombies[z].hasMoved == s.tracker.zombies[z].hasMoved
    decreases |ms|
  {
    if ms != [] {
      var s1 := s.Step(z, ms[0]);
      StepKeepsRoster(s, z, ms[0], s1);
      ProcessMovesKeepsRoster(s1, z, ms[1..], r);
    }
  }

  /** The zombies created during a pass have not moved yet. */
  lemma {:induction false} ProcessMovesNewUnmoved(s: State, z: nat, ms: seq<Direction>, r: State)
    requires s.Valid() && z < |s.tracker.zombies| && r == s.ProcessMoves(z, ms)
    ensures forall i :: |s.tracker.zombies| <= i < |r.tracker.zombies| ==> !r.tracker.zombies[i].hasMoved
    decreases |ms|
  {
    if ms != [] {
      var s1 := s.Step(z, ms[0]);
      StepNewUnmoved(s, z, ms[0], s1);
      ProcessMovesKeepsRoster(s1, z, ms[1..], r);
      ProcessMovesNewUnmoved(s1, z, ms[1..], r);
    }
  }

  /** A pass over a + b is the pass over a, then the pass over b from where it ended. */
  lemma {:induction false} ProcessMovesAppend(s: State, z: nat, a: seq<Direction>, b: seq<Direction>)
    requires s.Valid() && z < |s.tracker.zombies|
    ensures s.ProcessMoves(z, a + b) == s.ProcessMoves(z, a).ProcessMoves(z, b)
    decreases |a|
  {
    if a == [] {
      assert a + b == b;
    } else {
      assert (a + b)[0] == a[0] && (a + b)[1..] == a[1..] + b;
      ProcessMovesAppend(s.Step(z, a[0]), z, a[1..], b);
    }
  }

  // ---------------------------------------------------------------------------
  // The run invariant

  /**
   * The shape of a run after `done` whole turns, with n zombies: the queue holds ids
   * done .. n - 1 in order, the moves so far are `done` whole turns in id order, the
   * infections created zombies 1 .. n - 1 in order, each announced right after its
   * move, and exactly the zombies 0 .. done - 1 have had their turn.
   */
  predicate Ordered(s: State)
  {
    var n := |s.tracker.zombies|;
    1 <= n && |s.queue| <= n &&
    var done := n - |s.queue|;
    s.queue == Range(done, n) &&
    MovedBy(s.log) == Turns(done, |s.moves|) &&
    Spawned(s.log) == Range(1, n) &&
    WellPaired(s.log) &&
    forall i :: 0 <= i < n ==> (s.tracker.zombies[i].hasMoved <==> i < done)
  }

  lemma InitialOrdered(world: World, start: Position, creaturePositions: seq<Position>, moves: seq<Direction>)
    ensures Ordered(Initial(world, start, creaturePositions, moves))
  {
    var s := Initial(world, start, creaturePositions, moves);
    assert s.tracker.zombies == [ZombieRec(0, start, false)];
  }

  /** A turn is the pass of the front zombie over the moves, after which it is marked as moved. */
  lemma TurnPass(s: State, f: State)
    requires s.Valid() && s.queue != [] && f == s.Turn()
    ensures var r := s.(queue := s.queue[1..]).ProcessMoves(s.queue[0], s.moves);
      f.queue == r.queue && f.log == r.log &&
      f.tracker.zombies == r.tracker.zombies[s.queue[0] := r.tracker.zombies[s.queue[0]].(hasMoved := true)]
  {
  }

  /** A turn dequeues the front zombie, then queues and announces the zombies it created, in id order. */
  lemma TurnQueue(s: State, f: State)
    requires s.Valid() && s.queue != [] && f == s.Turn()
    ensures |s.tracker.zombies| <= |f.tracker.zombies|
    ensures f.queue == s.queue[1..] + Range(|s.tracker.zombies|, |f.tracker.zombies|)
    ensures Spawned(f.log) == Spawned(s.log) + Range(|s.tracker.zombies|, |f.tracker.zombies|)
  {
    var s1 := s.(queue := s.queue[1..]);
    var r := s1.ProcessMoves(s.queue[0], s.moves);
    TurnPass(s, f);
    ProcessMovesQueue(s1, s.queue[0], s.moves, r);
  }

  /** A turn is one move event of the front zombie per direction, each infection right after its move. */
  lemma TurnMoved(s: State, f: State)
    requires s.Valid() && s.queue != [] && f == s.Turn()
    ensures MovedBy(f.log) == MovedBy(s.log) + Repeat(s.queue[0], |s.moves|)
    ensures WellPaired(s.log) ==> WellPaired(f.log)
  {
    var s1 := s.(queue := s.queue[1..]);
    var r := s1.ProcessMoves(s.queue[0], s.moves);
    TurnPass(s, f);
    ProcessMovesMoved(s1, s.queue[0], s.moves, r);
  }

  /** A turn marks the front zombie as moved, leaves every other flag alone, and adds only unmoved zombies. */
  lemma TurnRoster(s: State, f: State)
    requires s.Valid() && s.queue != [] && f == s.Turn()
    ensures |s.tracker.zombies| <= |f.tracker.zombies|
    ensures forall i :: 0 <= i < |s.tracker.zombies| && i != s.queue[0] ==>
      f.tracker.zombies[i].hasMoved == s.tracker.zombies[i].hasMoved
    ensures f.tracker.zombies[s.queue[0]].hasMoved
    ensures forall i :: |s.tracker.zombies| <= i < |f.tracker.zombies| ==> !f.tracker.zombies[i].hasMoved
  {
    var s1 := s.(queue := s.queue[1..]);
    var r := s1.ProcessMoves(s.queue[0], s.moves);
    TurnPass(s, f);
    ProcessMovesKeepsRoster(s1, s.queue[0], s.moves, r);
    ProcessMovesNewUnmoved(s1, s.queue[0], s.moves, r);
  }

  /** The flags after the turn of zombie `done`: exactly the zombies 0 .. done have moved. */
  lemma FlagsAfterTurn(zs: seq<ZombieRec>, zs': seq<ZombieRec>, done: nat)
    requires done < |zs| <= |zs'|
    requires forall i :: 0 <= i < |zs| ==> (zs[i].hasMoved <==> i < done)
    requires forall i :: 0 <= i < |zs| && i != done ==> zs'[i].hasMoved == zs[i].hasMoved
    requires zs'[done].hasMoved
    requires forall i :: |zs| <= i < |zs'| ==> !zs'[i].hasMoved
    ensures forall i :: 0 <= i < |zs'| ==> (zs'[i].hasMoved <==> i < done + 1)
  {
  }

  /** A turn of the front zombie moves the run from `done` to `done + 1` whole turns. */
  lemma TurnOrdered(s: State)
    requires s.Valid() && Ordered(s) && s.queue != []
    ensures Ordered(s.Turn())
  {
    var n := |s.tracker.zombies|;
    var done := n - |s.queue|;
    var f := s.Turn();
    assert s.queue[0] == done;
    TurnQueue(s, f);
    RangeAfterTurn(s.queue, Spawned(s.log), f.queue, Spawned(f.log), done, n, |f.tracker.zombies|);
    TurnMoved(s, f);
    TurnRoster(s, f);
    FlagsAfterTurn(s.tracker.zombies, f.tracker.zombies, done);
  }

  lemma {:induction false} RunOrdered(s: State)
    requires s.Valid() && Ordered(s)
    ensures Ordered(s.Run())
    decreases s.Measure()
  {
    if s.queue != [] {
      TurnOrdered(s);
      RunOrdered(s.Turn());
    }
  }

  /**
   * The ordering contract of `run`: with n zombies at the end, the move events are m for
   * zombie 0, then m for zombie 1, and so on up to n - 1 (m = the number of moves); the
   * infections created zombies 1 .. n - 1 in that order, each announced right after the
   * move that caused it; every zombie has had its turn; and there is at most one zombie
   * per creature besides the first.
   */
  /** A finished run in order: every zombie had its whole turn, in id order. */
  lemma RunFinal(f: State)
    requires f.Valid() && Ordered(f) && f.queue == []
    ensures
      var n := |f.tracker.zombies|;
      1 <= n &&
      MovedBy(f.log) == Turns(n, |f.moves|) &&
      Spawned(f.log) == Range(1, n) &&
      WellPaired(f.log) &&
      forall i :: 0 <= i < n ==> f.tracker.zombies[i].id == i && f.tracker.zombies[i].hasMoved
  {
  }

  lemma RunInTurnOrder(world: World, start: Position, creaturePositions: seq<Position>, moves: seq<Direction>)
    ensures
      var f := Initial(world, start, creaturePositions, moves).Run();
      var n := |f.tracker.zombies|;
      1 <= n <= 1 + |creaturePositions| &&
      MovedBy(f.log) == Turns(n, |moves|) &&
      Spawned(f.log) == Range(1, n) &&
      WellPaired(f.log) &&
      forall i :: 0 <= i < n ==> f.tracker.zombies[i].id == i && f.tracker.zombies[i].hasMoved
  {
    var s := Initial(world, start, creaturePositions, moves);
    InitialOrdered(world, start, creaturePositions, moves);
    RunOrdered(s);
    RunFinal(s.Run());
  }

  /** In k whole turns of m moves, the owner of each move is its index divided by m, so owners never decrease. */
  lemma TurnsNeverInterleave(k: nat, m: nat)
    requires m > 0
    ensures forall i :: 0 <= i < k * m ==> Turns(k, m)[i] == i / m
    ensures forall i, j :: 0 <= i < k * m && 0 <= j < k * m && Turns(k, m)[i] < Turns(k, m)[j] ==> i < j
  {
    TurnsIndex(k, m);
    forall i, j | 0 <= i < k * m && 0 <= j < k * m && Turns(k, m)[i] < Turns(k, m)[j]
      ensures i < j
    {
      if j <= i {
        DivMonotone(j, i, m);
      }
    }
  }

  /**
   * Every move of a zombie comes before every move of any zombie with a larger id, even
   * of one it created itself, and each zombie makes exactly one move per direction.
   */
  lemma MovesNeverInterleave(world: World, start: Position, creaturePositions: seq<Position>, moves: seq<Direction>)
    requires moves != []
    ensures
      var f := Initial(world, start, creaturePositions, moves).Run();
      var ids := MovedBy(f.log);
      |ids| == |f.tracker.zombies| * |moves| &&
      (forall i :: 0 <= i < |ids| ==> ids[i] == i / |moves|) &&
      forall i, j :: 0 <= i < |ids| && 0 <= j < |ids| && ids[i] < ids[j] ==> i < j
  {
    var f := Initial(world, start, creaturePositions, moves).Run();
    RunInTurnOrder(world, start, creaturePositions, moves);
    TurnsNeverInterleave(|f.tracker.zombies|, |moves|);
  }
}
