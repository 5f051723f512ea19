/**
 * Zombies, creatures and the tracker that owns them (src/entities.py).
 *
 * Each entity has a value view (`ZombieRec`, `CreatureRec`, `TrackerState`) whose
 * operations are specification functions; the classes below update their fields in
 * place, as the source does, and each method states its new value view in terms of
 * the old one.
 */
module Entities {
  import opened Wrappers
  import opened Topology

  // ---------------------------------------------------------------------------
  // Value views

  /**
   * A creature: where it was placed, whether it can be infected at all (the
   * overridable `can_be_infected`, fixed per creature), and whether it is alive.
   */
  datatype CreatureRec = CreatureRec(position: Position, infectable: bool, alive: bool)

  /** A zombie: its sequential id, its current position, and whether its turn is done. */
  datatype ZombieRec = ZombieRec(id: nat, position: Position, hasMoved: bool)

  /** `Creature.infect` on the value view: whether it succeeded, and the creature afterwards. */
  function InfectOutcome(c: CreatureRec): (bool, CreatureRec)
  {
    if !c.alive || !c.infectable then (false, c) else (true, c.(alive := false))
  }

  /** A new creature is alive. */
  function NewCreature(position: Position, infectable: bool): (c: CreatureRec)
    ensures c.alive && c.position == position && c.infectable == infectable
  {
    CreatureRec(position, infectable, true)
  }

  /** After a successful `infect`, the creature is dead and every later `infect` fails. */
  lemma InfectAtMostOnce(c: CreatureRec)
    requires InfectOutcome(c).0
    ensures !InfectOutcome(c).1.alive
    ensures InfectOutcome(InfectOutcome(c).1) == (false, InfectOutcome(c).1)
  {
  }

  /** A creature that cannot be infected is left exactly as it was, alive or not. */
  lemma ImmuneUnchanged(c: CreatureRec)
    requires !c.infectable
    ensures InfectOutcome(c) == (false, c)
  {
  }

  /** `infect` succeeds exactly on a living, infectable creature, and only kills it. */
  lemma InfectOnlyKills(c: CreatureRec)
    ensures InfectOutcome(c).0 <==> c.alive && c.infectable
    ensures InfectOutcome(c).1 == c.(alive := c.alive && !InfectOutcome(c).0)
  {
  }

  /** The living creatures of `cs`, in their original order (`living_creatures`). */
  function Living(cs: seq<CreatureRec>): seq<CreatureRec>
  {
    if cs == [] then []
    else Living(cs[..|cs| - 1]) + (if cs[|cs| - 1].alive then [cs[|cs| - 1]] else [])
  }

  /** `Living` keeps exactly the living creatures. */
  lemma {:induction false} LivingMembers(cs: seq<CreatureRec>)
    ensures forall c :: c in Living(cs) <==> c in cs && c.alive
  {
    if cs != [] {
      var init := cs[..|cs| - 1];
      LivingMembers(init);
      assert cs == init + [cs[|cs| - 1]];
    }
  }

  /** `Living` keeps order: filtering a concatenation concatenates the filtered parts. */
  lemma {:induction false} LivingAppend(a: seq<CreatureRec>, b: seq<CreatureRec>)
    ensures Living(a + b) == Living(a) + Living(b)
    decreases |b|
  {
    if b == [] {
      assert a + b == a;
    } else {
      var b' := b[..|b| - 1];
      assert (a + b)[..|a + b| - 1] == a + b';
      assert (a + b)[|a + b| - 1] == b[|b| - 1];
      LivingAppend(a, b');
    }
  }

  /** When every creature is alive `Living` keeps them all; when none is, it keeps none. */
  lemma {:induction false} LivingAllOrNone(cs: seq<CreatureRec>)
    ensures (forall i :: 0 <= i < |cs| ==> cs[i].alive) ==> Living(cs) == cs
    ensures (forall i :: 0 <= i < |cs| ==> !cs[i].alive) ==> Living(cs) == []
  {
    if cs != [] {
      var init := cs[..|cs| - 1];
      LivingAllOrNone(init);
      assert cs == init + [cs[|cs| - 1]];
    }
  }

  /** Filtering twice is filtering once. */
  lemma {:induction false} LivingIdempotent(cs: seq<CreatureRec>)
    ensures Living(Living(cs)) == Living(cs)
  {
    if cs != [] {
      var init := cs[..|cs| - 1];
      var last := cs[|cs| - 1];
      LivingIdempotent(init);
      LivingAppend(Living(init), if last.alive then [last] else []);
      if last.alive {
        assert [last][..0] == [];
      }
    }
  }

  /**
   * The tracker's value view: zombies in creation order, creatures in placement
   * order, and the index from a position to the slot of the creature placed there.
   */
  datatype TrackerState = TrackerState(zombies: seq<ZombieRec>, creatures: seq<CreatureRec>, index: map<Position, nat>)
  {
    /** The index invariant: every entry names a living creature placed at that very key. */
    predicate Valid()
    {
      forall p :: p in index ==>
        index[p] < |creatures| && creatures[index[p]].position == p && creatures[index[p]].alive
    }

    /** Zombie ids are 0 .. n-1 in list order. */
    predicate IdsSequential()
    {
      forall i :: 0 <= i < |zombies| ==> zombies[i].id == i
    }

    /** `add_zombie`: append to the roster. */
    function AddZombie(z: ZombieRec): TrackerState
    {
      this.(zombies := zombies + [z])
    }

    /**
     * `add_creature`: append the creature and index it under its position, replacing
     * any earlier creature indexed there (which stays alive but unreachable).
     */
    function AddCreature(c: CreatureRec): (r: TrackerState)
      requires Valid() && c.alive
      ensures r.Valid()
      ensures r.creatures == creatures + [c] && r.zombies == zombies
      ensures r.index.Keys == index.Keys + {c.position}
      ensures r.index[c.position] == |creatures|
      ensures forall q :: q in index && q != c.position ==> r.index[q] == index[q]
      ensures |r.index| <= |index| + 1
    {
      MapInsertCard(index, c.position, |creatures|);
      this.(creatures := creatures + [c], index := index[c.position := |creatures|])
    }

    /** `get_creature_at`: the slot of the living creature indexed at `p`, if any. */
    function CreatureAt(p: Position): (r: Option<nat>)
      requires Valid()
      ensures r.Some? <==> p in index
      ensures r.Some? ==> r.value < |creatures| && creatures[r.value].position == p && creatures[r.value].alive
    {
      if p in index && creatures[index[p]].alive then Some(index[p]) else None
    }

    /**
     * `remove_creature_at`: infect the creature indexed at `p`; only when that succeeds
     * is its key dropped and its slot returned. Otherwise nothing changes.
     */
    function RemoveCreatureAt(p: Position): (r: (TrackerState, Option<nat>))
      requires Valid()
      ensures r.0.Valid()
      ensures r.1.Some? <==> p in index && creatures[index[p]].infectable
      ensures r.1.None? ==> r.0 == this
      ensures r.1.Some? ==>
        var k := r.1.value;
        k == index[p] && creatures[k].alive &&
        r.0.creatures == creatures[k := creatures[k].(alive := false)] &&
        r.0.index == index - {p} && r.0.zombies == zombies
      ensures |r.0.index| == |index| - (if r.1.Some? then 1 else 0)
    {
      if p in index then
        var k := index[p];
        var (ok, c) := InfectOutcome(creatures[k]);
        if ok then
          MapRemoveCard(index, p);
          (this.(creatures := creatures[k := c], index := index - {p}), Some(k))
        else (this, None)
      else (this, None)
    }

    /** `create_zombie_at`: the new zombie's id is the roster length before the call; it goes last. */
    function CreateZombieAt(p: Position): (r: (TrackerState, nat))
      ensures r.1 == |zombies|
      ensures r.0 == AddZombie(ZombieRec(r.1, p, false))
      ensures IdsSequential() ==> r.0.IdsSequential()
    {
      (AddZombie(ZombieRec(|zombies|, p, false)), |zombies|)
    }

    /** `living_creatures`. */
    function LivingCreatures(): seq<CreatureRec>
    {
      Living(creatures)
    }
  }

  /** A fresh tracker holds nothing. */
  function EmptyTracker(): (t: TrackerState)
    ensures t.Valid() && t.IdsSequential()
  {
    TrackerState([], [], map[])
  }

  lemma MapInsertCard<K, V>(m: map<K, V>, k: K, v: V)
    ensures |m[k := v]| <= |m| + 1
  {
    if k in m {
      assert m[k := v].Keys == m.Keys;
    } else {
      assert m[k := v].Keys == m.Keys + {k};
    }
  }

  lemma MapRemoveCard<K, V>(m: map<K, V>, k: K)
    requires k in m
    ensures |m - {k}| == |m| - 1
  {
    assert (m - {k}).Keys == m.Keys - {k};
    assert m.Keys == (m.Keys - {k}) + {k};
  }

  /**
   * A creature placed at a position that a later creature also occupies is shadowed:
   * the index names the later one.
   */
  lemma {:induction false} AddCreatureShadows(t: TrackerState, c: CreatureRec, d: CreatureRec)
    requires t.Valid() && c.alive && d.alive && c.position == d.position
    ensures t.AddCreature(c).AddCreature(d).index[c.position] == |t.creatures| + 1
    ensures t.AddCreature(c).AddCreature(d).creatures[|t.creatures|] == c
  {
    var t1 := t.AddCreature(c);
    assert |t1.creatures| == |t.creatures| + 1;
  }

  // ---------------------------------------------------------------------------
  // Objects

  /** `Creature` (and its default `BasicCreature`); `on_infected` is a no-op and left out. */
  class Creature {
    const position: Position
    /** Stands for the overridable `can_be_infected()`. */
    const infectable: bool
    var alive: bool

    constructor (position: Position, infectable: bool)
      ensures Rec() == NewCreature(position, infectable)
    {
      this.position := position;
      this.infectable := infectable;
      alive := true;
    }

    function Rec(): CreatureRec
      reads this
    {
      CreatureRec(position, infectable, alive)
    }

    /** `Creature.infect`: the single gate from alive to dead. */
    method Infect() returns (ok: bool)
      modifies this
      ensures (ok, Rec()) == InfectOutcome(old(Rec()))
    {
      if !alive || !infectable {
        return false;
      }
      alive := false;
      return true;
    }
  }

  /** `Zombie`: a sequential id, a mutable position and a turn-completed flag. */
  class Zombie {
    const id: nat
    var position: Position
    var hasMoved: bool

    constructor (id: nat, position: Position)
      ensures Rec() == ZombieRec(id, position, false)
    {
      this.id := id;
      this.position := position;
      hasMoved := false;
    }

    function Rec(): ZombieRec
      reads this
    {
      ZombieRec(id, position, hasMoved)
    }

    /** `Zombie.move_to`: only the position changes. */
    method MoveTo(newPosition: Position)
      modifies this`position
      ensures Rec() == old(Rec()).(position := newPosition)
    {
      position := newPosition;
    }
  }

  function ZombieRecs(zs: seq<Zombie>): (r: seq<ZombieRec>)
    reads zs
    ensures |r| == |zs| && forall i :: 0 <= i < |zs| ==> r[i] == zs[i].Rec()
  {
    seq(|zs|, i requires 0 <= i < |zs| reads zs => zs[i].Rec())
  }

  function CreatureRecs(cs: seq<Creature>): (r: seq<CreatureRec>)
    reads cs
    ensures |r| == |cs| && forall i :: 0 <= i < |cs| ==> r[i] == cs[i].Rec()
  {
    seq(|cs|, i requires 0 <= i < |cs| reads cs => cs[i].Rec())
  }

  /** The living creatures among `cs`, in order. */
  function AliveOnes(cs: seq<Creature>): (r: seq<Creature>)
    reads cs
    ensures forall c :: c in r ==> c in cs && c.alive
    ensures forall i :: 0 <= i < |cs| && cs[i].alive ==> cs[i] in r
    ensures CreatureRecs(r) == Living(CreatureRecs(cs))
  {
    if cs == [] then []
    else
      var init, last := cs[..|cs| - 1], cs[|cs| - 1];
      assert CreatureRecs(cs) == CreatureRecs(init) + [last.Rec()];
      AliveOnes(init) + (if last.alive then [last] else [])
  }

  /** The object invariant implies the value-level index invariant. */
  lemma ValidValue(tr: EntityTracker)
    requires tr.Valid()
    ensures tr.Value().Valid()
  {
  }

  /** `EntityTracker`: the zombie roster, the creature list and the position index. */
  class EntityTracker {
    var zombies: seq<Zombie>
    var creatures: seq<Creature>
    var index: map<Position, Creature>
    /** The slot in `creatures` of each indexed creature. */
    ghost var slot: map<Position, nat>

    /**
     * Creatures are distinct objects, and the index names, under each key, the living
     * creature placed there.
     */
    ghost predicate Valid()
      reads this, creatures
    {
      (forall i, j :: 0 <= i < j < |creatures| ==> creatures[i] != creatures[j]) &&
      slot.Keys == index.Keys &&
      forall p :: p in slot ==>
        slot[p] < |creatures| && index[p] == creatures[slot[p]] &&
        creatures[slot[p]].position == p && creatures[slot[p]].alive
    }

    ghost function Value(): (t: TrackerState)
      reads this, zombies, creatures
    {
      TrackerState(ZombieRecs(zombies), CreatureRecs(creatures), slot)
    }

    constructor ()
      ensures Valid() && Value() == EmptyTracker()
      ensures zombies == [] && creatures == [] && index == map[]
    {
      zombies, creatures, index := [], [], map[];
      slot := map[];
    }

    /** `add_zombie`: append to the roster. */
    method AddZombie(z: Zombie)
      requires Valid()
      modifies this
      ensures Valid()
      ensures zombies == old(zombies) + [z] && creatures == old(creatures) && index == old(index)
      ensures Value() == old(Value()).AddZombie(z.Rec())
    {
      zombies := zombies + [z];
    }

    /** `add_creature`: append and index under the creature's position (later wins). */
    method AddCreature(c: Creature)
      requires Valid() && c.alive && c !in creatures
      modifies this
      ensures Valid()
      ensures zombies == old(zombies) && creatures == old(creatures) + [c]
      ensures index == old(index)[c.position := c]
      ensures Value() == old(Value()).AddCreature(c.Rec())
    {
      ghost var t := Value();
      ValidValue(this);
      slot := slot[c.position := |creatures|];
      creatures := creatures + [c];
      index := index[c.position := c];
      assert ZombieRecs(zombies) == t.zombies;
      assert CreatureRecs(creatures) == t.creatures + [c.Rec()];
      assert Value() == t.(creatures := t.creatures + [c.Rec()], index := t.index[c.position := |t.creatures|]);
    }

    /** `get_creature_at`: under the invariant its liveness test never fails. */
    function GetCreatureAt(p: Position): (r: Creature?)
      requires Valid()
      reads this, creatures
      ensures r != null <==> p in index
      ensures r != null ==> r == index[p] && r.alive && r.position == p
    {
      if p in index && index[p].alive then index[p] else null
    }

    /** `remove_creature_at`: infect the indexed creature; drop its key only on success. */
    method RemoveCreatureAt(p: Position) returns (c: Creature?)
      requires Valid()
      modifies this, creatures
      ensures Valid()
      ensures zombies == old(zombies) && creatures == old(creatures)
      ensures Value() == old(Value()).RemoveCreatureAt(p).0
      ensures c != null <==> old(Value()).RemoveCreatureAt(p).1.Some?
      ensures c != null ==> p in old(index) && c == old(index)[p]
    {
      if p in index {
        var creature := index[p];
        var ok := InfectIndexed(p);
        if ok {
          Unindex(p);
          return creature;
        }
      }
      return null;
    }

    /** The tracker invariant for every key except `p`. */
    ghost predicate ValidExcept(p: Position)
      reads this, creatures
    {
      (forall i, j :: 0 <= i < j < |creatures| ==> creatures[i] != creatures[j]) &&
      slot.Keys == index.Keys && p in slot && slot[p] < |creatures| &&
      forall q :: q in slot && q != p ==>
        slot[q] < |creatures| && index[q] == creatures[slot[q]] &&
        creatures[slot[q]].position == q && creatures[slot[q]].alive
    }

    /** The `infect` call of `remove_creature_at`, on the creature indexed at `p`. */
    method InfectIndexed(p: Position) returns (ok: bool)
      requires Valid() && p in index
      modifies index[p]
      ensures ok == old(Value()).RemoveCreatureAt(p).1.Some?
      ensures !ok ==> Valid() && Value() == old(Value())
      ensures ok ==> ValidExcept(p) && Value() == old(Value()).(creatures := old(Value()).RemoveCreatureAt(p).0.creatures)
    {
      ghost var t := Value();
      ghost var k := slot[p];
      ok := index[p].Infect();
      forall i | 0 <= i < |creatures| && i != k
        ensures creatures[i].Rec() == t.creatures[i]
      {
        assert creatures[i] != creatures[k];
      }
      assert ZombieRecs(zombies) == t.zombies;
      if ok {
        ghost var cs := t.creatures[k := t.creatures[k].(alive := false)];
        assert CreatureRecs(creatures) == cs;
        assert t.RemoveCreatureAt(p).0.creatures == cs;
        forall q | q in slot && q != p
          ensures creatures[slot[q]].alive
        {
          assert slot[q] != k;
        }
        assert Value() == t.(creatures := cs);
      } else {
        assert CreatureRecs(creatures) == t.creatures;
        assert t.RemoveCreatureAt(p).1 == None;
        assert Value() == t;
      }
    }

    /** Dropping the key of the creature just infected restores the invariant. */
    method Unindex(p: Position)
      requires ValidExcept(p)
      modifies this
      ensures Valid()
      ensures zombies == old(zombies) && creatures == old(creatures)
      ensures index == old(index) - {p}
      ensures Value() == old(Value()).(index := old(Value()).index - {p})
    {
      index := index - {p};
      slot := slot - {p};
    }

    /** `create_zombie_at`: a fresh zombie with the next id, appended last. */
    method CreateZombieAt(p: Position) returns (z: Zombie)
      requires Valid()
      modifies this
      ensures Valid() && fresh(z)
      ensures zombies == old(zombies) + [z] && creatures == old(creatures) && index == old(index)
      ensures (Value(), z.id) == old(Value()).CreateZombieAt(p)
    {
      z := new Zombie(|zombies|, p);
      AddZombie(z);
    }

    /** `zombie_count`. */
    function ZombieCount(): nat
      reads this
    {
      |zombies|
    }

    /** `living_creatures`: the living creatures in placement order. */
    function LivingCreatures(): (r: seq<Creature>)
      reads this, creatures
      ensures forall c :: c in r ==> c in creatures && c.alive
      ensures forall i :: 0 <= i < |creatures| && creatures[i].alive ==> creatures[i] in r
      ensures CreatureRecs(r) == Value().LivingCreatures()
    {
      AliveOnes(creatures)
    }
  }
}
