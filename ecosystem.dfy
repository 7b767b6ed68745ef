/**
 * EcosystemState of ecosystem.cpp: the simulation core that owns the
 * registry and the birth and death counters, seeds the populations, and
 * runs the phases of a tick (update, reproduction, statistics, cleanup).
 *
 * The engine calls each individual's virtual `update`, `can_reproduce` and
 * `reproduce`.  Every list only ever receives individuals made by its own
 * species' constructor (initial seeding and reproduction), so the model
 * dispatches on the list's name to that species' operations.  The updates
 * are those of the single-file revision (module Monolithic), which is the
 * header ecosystem.cpp is built against.  `can_reproduce` and `reproduce`
 * are taken from the split revision (modules Grasses, Cows and Tigers): the
 * single-file revision repeats them unchanged (species.cpp:204-226, 259-279
 * and 323-343 against grass.cpp:112-137, cow.cpp:62-85 and tiger.cpp:69-92).
 * Calls to rand() and the random engine are parameters.
 */
module Ecosystem {
  import opened Wrappers
  import opened KeyOrder
  import opened Geometry
  import opened Individuals
  import opened Registry
  import Grasses
  import Cows
  import Tigers
  import Monolithic

  /** The names the engine registers. */
  predicate Registered(name: string)
  {
    name == "grass" || name == "cow" || name == "tiger"
  }

  function KindOfName(name: string): Kind
    requires Registered(name)
  {
    if name == "grass" then GrassKind else if name == "cow" then CowKind else TigerKind
  }

  /** The constructor initialize_populations picks for a name. */
  function NewOfName(name: string, pos: Position): (r: Individual)
    requires Registered(name)
    ensures r.kind == KindOfName(name) && r.position == pos
    ensures r.alive && r.age == 0 && r.deathReason == "" && r.reproductionCooldown == 0
  {
    if name == "grass" then Grasses.NewGrass(pos)
    else if name == "cow" then Cows.NewCow(pos)
    else Tigers.NewTiger(pos)
  }

  /** Two non-negative rand() results per new individual, indexed by species and ordinal. */
  type SpawnDraws = (string, nat) -> (nat, nat)

  /**
   * Whether initialize_populations can seed `count` individuals in a `w` by
   * `h` world: rand() % side is only undefined for a zero side, and it is
   * only taken when there is someone to place.
   */
  predicate Seedable(count: int, w: int, h: int)
  {
    count <= 0 || (w != 0 && h != 0)
  }

  /** Every species of `reg` can be seeded in a `w` by `h` world. */
  predicate SeedableWorld(reg: map<string, SpeciesInfo>, w: int, h: int)
  {
    forall n :: n in reg ==> Seedable(reg[n].initialCount, w, h)
  }

  /** A configuration whose counts are seedable gives a seedable new registry. */
  lemma SeedableAtStart(config: EcosystemConfig, reg: map<string, SpeciesInfo>)
    requires Seedable(config.initialGrass, config.worldWidth, config.worldHeight)
    requires Seedable(config.initialCows, config.worldWidth, config.worldHeight)
    requires Seedable(config.initialTigers, config.worldWidth, config.worldHeight)
    requires reg == map["grass" := SpeciesInfo("grass", [], config.initialGrass),
                        "cow" := SpeciesInfo("cow", [], config.initialCows),
                        "tiger" := SpeciesInfo("tiger", [], config.initialTigers)]
    ensures SeedableWorld(reg, config.worldWidth, config.worldHeight)
  {
  }

  /** Seeding the new registry of `config` gives each species exactly its spawned individuals. */
  lemma SeededAtStart(config: EcosystemConfig, draws: SpawnDraws, empty: map<string, SpeciesInfo>, seeded: map<string, SpeciesInfo>)
    requires Seedable(config.initialGrass, config.worldWidth, config.worldHeight)
    requires Seedable(config.initialCows, config.worldWidth, config.worldHeight)
    requires Seedable(config.initialTigers, config.worldWidth, config.worldHeight)
    requires empty == map["grass" := SpeciesInfo("grass", [], config.initialGrass),
                          "cow" := SpeciesInfo("cow", [], config.initialCows),
                          "tiger" := SpeciesInfo("tiger", [], config.initialTigers)]
    requires seeded.Keys == empty.Keys
    requires forall n :: n in seeded ==>
      seeded[n] == empty[n].(list := empty[n].list + Spawned(n, empty[n].initialCount, config.worldWidth, config.worldHeight, draws))
    ensures seeded.Keys == {"grass", "cow", "tiger"}
    ensures seeded["grass"] == SpeciesInfo("grass", Spawned("grass", config.initialGrass, config.worldWidth, config.worldHeight, draws), config.initialGrass)
    ensures seeded["cow"] == SpeciesInfo("cow", Spawned("cow", config.initialCows, config.worldWidth, config.worldHeight, draws), config.initialCows)
    ensures seeded["tiger"] == SpeciesInfo("tiger", Spawned("tiger", config.initialTigers, config.worldWidth, config.worldHeight, draws), config.initialTigers)
  {
    var w, h := config.worldWidth, config.worldHeight;
    assert [] + Spawned("grass", config.initialGrass, w, h, draws) == Spawned("grass", config.initialGrass, w, h, draws);
    assert [] + Spawned("cow", config.initialCows, w, h, draws) == Spawned("cow", config.initialCows, w, h, draws);
    assert [] + Spawned("tiger", config.initialTigers, w, h, draws) == Spawned("tiger", config.initialTigers, w, h, draws);
  }

  /** Emptying every list keeps the initial counts, and so what can be seeded. */
  lemma Reseedable(r0: map<string, SpeciesInfo>, r1: map<string, SpeciesInfo>, w: int, h: int)
    requires SeedableWorld(r0, w, h)
    requires r1.Keys == r0.Keys && forall n :: n in r1 ==> r1[n] == r0[n].(list := [])
    ensures SeedableWorld(r1, w, h)
  {
  }

  /** Seeding the emptied registry `r1` of `r0` leaves each species exactly its spawned individuals. */
  lemma Reseeded(r0: map<string, SpeciesInfo>, r1: map<string, SpeciesInfo>, r2: map<string, SpeciesInfo>, w: int, h: int,
                 draws: SpawnDraws)
    requires forall n :: n in r0 <==> Registered(n)
    requires SeedableWorld(r0, w, h)
    requires r1.Keys == r0.Keys && forall n :: n in r1 ==> r1[n] == r0[n].(list := [])
    requires r2.Keys == r1.Keys
    requires forall n :: n in r2 ==> r2[n] == r1[n].(list := r1[n].list + Spawned(n, r1[n].initialCount, w, h, draws))
    ensures forall n :: n in r2 ==> Registered(n) && r2[n] == r0[n].(list := Spawned(n, r0[n].initialCount, w, h, draws))
  {
    forall n | n in r2
      ensures Registered(n) && r2[n] == r0[n].(list := Spawned(n, r0[n].initialCount, w, h, draws))
    {
      assert [] + Spawned(n, r0[n].initialCount, w, h, draws) == Spawned(n, r0[n].initialCount, w, h, draws);
    }
  }

  /**
   * Where initialize_populations places an individual: each non-negative
   * rand() result reduced modulo the side. For a non-negative dividend C++'s
   * truncating `%` and Dafny's Euclidean `%` agree, whatever the side's sign.
   */
  function SpawnPosition(d: (nat, nat), w: int, h: int): (p: Position)
    requires w != 0 && h != 0
    ensures 0.0 <= p.x < (if w < 0 then -w else w) as real && 0.0 <= p.y < (if h < 0 then -h else h) as real
    ensures p.x == p.x.Floor as real && p.y == p.y.Floor as real
    ensures w > 0 && h > 0 ==> InWorld(p, w, h)
  {
    Position((d.0 % w) as real, (d.1 % h) as real)
  }

  /** The individuals initialize_populations appends for one species: a negative count gives none. */
  function Spawned(name: string, count: int, w: int, h: int, draws: SpawnDraws): (r: seq<Individual>)
    requires Registered(name) && Seedable(count, w, h)
    ensures |r| == if count < 0 then 0 else count
    ensures forall i :: 0 <= i < |r| ==> r[i] == NewOfName(name, SpawnPosition(draws(name, i), w, h))
  {
    seq(if count < 0 then 0 else count,
        i requires 0 <= i < (if count < 0 then 0 else count) => NewOfName(name, SpawnPosition(draws(name, i), w, h)))
  }

  /** Seeding one more individual extends the seeded list by exactly that individual. */
  lemma SpawnedStep(name: string, i: nat, w: int, h: int, draws: SpawnDraws)
    requires Registered(name) && w != 0 && h != 0
    ensures Spawned(name, i + 1, w, h, draws) == Spawned(name, i, w, h, draws) + [NewOfName(name, SpawnPosition(draws(name, i), w, h))]
  {
    var a := Spawned(name, i + 1, w, h, draws);
    var b := Spawned(name, i, w, h, draws) + [NewOfName(name, SpawnPosition(draws(name, i), w, h))];
    assert |a| == |b|;
    forall j | 0 <= j < |a|
      ensures a[j] == b[j]
    {
    }
  }

  /** The registry of the seeding loop after one more individual of `name`. */
  lemma SpawnExtends(start: map<string, SpeciesInfo>, name: string, before: SpeciesInfo, i: nat, w: int, h: int,
                     draws: SpawnDraws, prev: map<string, SpeciesInfo>)
    requires Registered(name) && w != 0 && h != 0
    requires prev == start[name := before.(list := before.list + Spawned(name, i, w, h, draws))]
    ensures prev[name := prev[name].(list := prev[name].list + [NewOfName(name, SpawnPosition(draws(name, i), w, h))])]
         == start[name := before.(list := before.list + Spawned(name, i + 1, w, h, draws))]
  {
    SpawnedStep(name, i, w, h, draws);
    var x := NewOfName(name, SpawnPosition(draws(name, i), w, h));
    assert before.list + Spawned(name, i + 1, w, h, draws) == before.list + Spawned(name, i, w, h, draws) + [x];
    var grown := before.(list := before.list + Spawned(name, i + 1, w, h, draws));
    OverrideTwice(start, name, prev[name], grown);
  }

  /** The draws of one tick's update pass: a heading per individual, and a sequence of unit draws per tiger. */
  datatype TickDraws = TickDraws(angle: (string, nat) -> real, hunt: nat -> nat -> real)

  /** The draws of one individual's reproduction: the two reproduction-chance gates of a grass and the two offset draws. */
  datatype BirthDraws = BirthDraws(gate1: real, gate2: real, ux: real, uy: real)

  /**
   * `b` is what one update pass may make of `a`: a dead individual stays
   * as it was, except that a tiger's hunting rate is recomputed every tick.
   */
  predicate Successor(a: Individual, b: Individual)
  {
    !a.alive ==> b == a.(huntingSuccessRate := b.huntingSuccessRate)
  }

  /** The registry after an update pass: same species, same list sizes, every member a Successor of its old self. */
  predicate Evolved(before: map<string, SpeciesInfo>, after: map<string, SpeciesInfo>)
  {
    before.Keys == after.Keys &&
    forall n :: n in before ==>
      after[n].name == before[n].name && after[n].initialCount == before[n].initialCount &&
      |after[n].list| == |before[n].list| &&
      forall i :: 0 <= i < |before[n].list| ==> Successor(before[n].list[i], after[n].list[i])
  }

  lemma EvolvedTransitive(a: map<string, SpeciesInfo>, b: map<string, SpeciesInfo>, c: map<string, SpeciesInfo>)
    requires Evolved(a, b) && Evolved(b, c)
    ensures Evolved(a, c)
  {
    forall n, i | n in a && 0 <= i < |a[n].list|
      ensures Successor(a[n].list[i], c[n].list[i])
    {
      assert Successor(a[n].list[i], b[n].list[i]);
      assert Successor(b[n].list[i], c[n].list[i]);
    }
  }

  /** A second write to the same key of a map replaces the first. */
  lemma OverrideTwice(m: map<string, SpeciesInfo>, k: string, a: SpeciesInfo, b: SpeciesInfo)
    ensures m[k := a][k := b] == m[k := b]
  {
  }

  /** Replacing one species' list by a member-wise Successor keeps the registry Evolved. */
  lemma EvolvedByWrite(reg: map<string, SpeciesInfo>, n: string, list: seq<Individual>)
    requires n in reg && |list| == |reg[n].list|
    requires forall i :: 0 <= i < |list| ==> Successor(reg[n].list[i], list[i])
    ensures Evolved(reg, reg[n := reg[n].(list := list)])
  {
  }

  /** A species' list as an update reads it; an absent species reads as empty. */
  function ListOf(reg: map<string, SpeciesInfo>, n: string): seq<Individual>
  {
    if n in reg then reg[n].list else []
  }

  /** The live lists that the tick snapshot's shared pointers reach. */
  function LiveLists(reg: map<string, SpeciesInfo>): Monolithic.Lists
  {
    Monolithic.Lists(ListOf(reg, "grass"), ListOf(reg, "cow"), ListOf(reg, "tiger"))
  }

  /** `after` is `before` once its `i`-th grass has run its update: only that grass changes. */
  ghost predicate GrassTurn(before: map<string, SpeciesInfo>, i: nat, snap: Monolithic.Snapshot, math: MathLib,
                            after: map<string, SpeciesInfo>)
  {
    && "grass" in before && i < |before["grass"].list|
    && exists g :: Monolithic.GrassUpdated(before["grass"].list[i], i, snap, LiveLists(before), math, g)
                && after == before["grass" := before["grass"].(list := before["grass"].list[i := g])]
  }

  /** `after` is `before` once its `i`-th cow has run its update: the grass list it grazed, then the cow. */
  ghost predicate CowTurn(before: map<string, SpeciesInfo>, i: nat, snap: Monolithic.Snapshot, angle: real, math: MathLib,
                          after: map<string, SpeciesInfo>)
  {
    && "grass" in before && "cow" in before && i < |before["cow"].list|
    && exists c, grass' :: Monolithic.CowUpdated(before["cow"].list[i], snap, LiveLists(before), angle, math, c, grass')
                        && after == before["grass" := before["grass"].(list := grass')]["cow" := before["cow"].(list := before["cow"].list[i := c])]
  }

  /** `after` is `before` once its `i`-th tiger has run its update: the cow list it hunted, then the tiger. */
  ghost predicate TigerTurn(before: map<string, SpeciesInfo>, i: nat, snap: Monolithic.Snapshot, angle: real, draw: nat -> real,
                            math: MathLib, after: map<string, SpeciesInfo>)
  {
    && "cow" in before && "tiger" in before && i < |before["tiger"].list|
    && exists t, cows' :: Monolithic.TigerUpdated(before["tiger"].list[i], snap, LiveLists(before), angle, draw, math, t, cows')
                       && after == before["cow" := before["cow"].(list := cows')]["tiger" := before["tiger"].(list := before["tiger"].list[i := t])]
  }

  /**
   * A predator's update written back: the prey list `prey` replaced by `eaten`
   * (dead prey untouched), then the predator's own entry `i` by `p`.
   */
  lemma WriteBack(reg: map<string, SpeciesInfo>, order: seq<string>, prey: string, eaten: seq<Individual>,
                  eater: string, i: nat, p: Individual)
    requires KeysInOrder(reg, order) && prey in reg && eater in reg && prey != eater && i < |reg[eater].list|
    requires |eaten| == |reg[prey].list| && forall j :: 0 <= j < |eaten| && !reg[prey].list[j].alive ==> eaten[j] == reg[prey].list[j]
    requires Successor(reg[eater].list[i], p)
    ensures KeysInOrder(reg[prey := reg[prey].(list := eaten)][eater := reg[eater].(list := reg[eater].list[i := p])], order)
    ensures Evolved(reg, reg[prey := reg[prey].(list := eaten)][eater := reg[eater].(list := reg[eater].list[i := p])])
  {
    var fed := reg[prey := reg[prey].(list := eaten)];
    var info := reg[eater].(list := reg[eater].list[i := p]);
    EvolvedByWrite(reg, prey, eaten);
    KeysInOrderWrite(reg, order, prey, reg[prey].(list := eaten));
    EvolvedByWrite(fed, eater, info.list);
    KeysInOrderWrite(fed, order, eater, info);
    EvolvedTransitive(reg, fed, fed[eater := info]);
  }

  /** A cow's computed update, written back, is its turn. */
  lemma CowTurnOf(reg: map<string, SpeciesInfo>, i: nat, snap: Monolithic.Snapshot, angle: real, math: MathLib,
                  c: Individual, grass': seq<Individual>)
    requires "grass" in reg && "cow" in reg && i < |reg["cow"].list|
    requires Monolithic.CowUpdated(reg["cow"].list[i], snap, LiveLists(reg), angle, math, c, grass')
    ensures CowTurn(reg, i, snap, angle, math,
                    reg["grass" := reg["grass"].(list := grass')]["cow" := reg["cow"].(list := reg["cow"].list[i := c])])
  {
  }

  /** A tiger's computed update, written back, is its turn. */
  lemma TigerTurnOf(reg: map<string, SpeciesInfo>, i: nat, snap: Monolithic.Snapshot, angle: real, draw: nat -> real, math: MathLib,
                    t: Individual, cows': seq<Individual>)
    requires "cow" in reg && "tiger" in reg && i < |reg["tiger"].list|
    requires Monolithic.TigerUpdated(reg["tiger"].list[i], snap, LiveLists(reg), angle, draw, math, t, cows')
    ensures TigerTurn(reg, i, snap, angle, draw, math,
                      reg["cow" := reg["cow"].(list := cows')]["tiger" := reg["tiger"].(list := reg["tiger"].list[i := t])])
  {
  }

  /** `after` is `before` once the `i`-th member of species `name` has run its update with its draws. */
  ghost predicate MemberUpdated(before: map<string, SpeciesInfo>, name: string, i: nat, snap: Monolithic.Snapshot,
                                draws: TickDraws, math: MathLib, after: map<string, SpeciesInfo>)
  {
    if name == "grass" then GrassTurn(before, i, snap, math, after)
    else if name == "cow" then CowTurn(before, i, snap, draws.angle(name, i), math, after)
    else name == "tiger" && TigerTurn(before, i, snap, draws.angle(name, i), draws.hunt(i), math, after)
  }

  /** A member's turn has one outcome. */
  lemma MemberUpdatedIsUnique(before: map<string, SpeciesInfo>, name: string, i: nat, snap: Monolithic.Snapshot,
                              draws: TickDraws, math: MathLib, a1: map<string, SpeciesInfo>, a2: map<string, SpeciesInfo>)
    requires MemberUpdated(before, name, i, snap, draws, math, a1) && MemberUpdated(before, name, i, snap, draws, math, a2)
    ensures a1 == a2
  {
    var lists := LiveLists(before);
    if name == "cow" {
      var angle := draws.angle(name, i);
      var c1, g1 :| Monolithic.CowUpdated(before["cow"].list[i], snap, lists, angle, math, c1, g1)
                  && a1 == before["grass" := before["grass"].(list := g1)]["cow" := before["cow"].(list := before["cow"].list[i := c1])];
      var c2, g2 :| Monolithic.CowUpdated(before["cow"].list[i], snap, lists, angle, math, c2, g2)
                  && a2 == before["grass" := before["grass"].(list := g2)]["cow" := before["cow"].(list := before["cow"].list[i := c2])];
      Monolithic.CowUpdatedIsUnique(before["cow"].list[i], snap, lists, angle, math, c1, g1, c2, g2);
    } else if name == "tiger" {
      var angle, draw := draws.angle(name, i), draws.hunt(i);
      var t1, k1 :| Monolithic.TigerUpdated(before["tiger"].list[i], snap, lists, angle, draw, math, t1, k1)
                  && a1 == before["cow" := before["cow"].(list := k1)]["tiger" := before["tiger"].(list := before["tiger"].list[i := t1])];
      var t2, k2 :| Monolithic.TigerUpdated(before["tiger"].list[i], snap, lists, angle, draw, math, t2, k2)
                  && a2 == before["cow" := before["cow"].(list := k2)]["tiger" := before["tiger"].(list := before["tiger"].list[i := t2])];
      Monolithic.TigerUpdatedIsUnique(before["tiger"].list[i], snap, lists, angle, draw, math, t1, k1, t2, k2);
    }
  }

  /** The turns of one species in a pass: its members by index. */
  function Turns(name: string, n: nat): (t: seq<(string, nat)>)
    ensures |t| == n && forall j :: 0 <= j < n ==> t[j] == (name, j)
  {
    seq(n, j => (name, j))
  }

  /** The turns of update_species over the first `k` names of SpeciesOrder, with the list sizes of `reg`. */
  function PassTurns(reg: map<string, SpeciesInfo>, k: nat): seq<(string, nat)>
    requires k <= |SpeciesOrder|
  {
    if k == 0 then [] else PassTurns(reg, k - 1) + Turns(SpeciesOrder[k - 1], |ListOf(reg, SpeciesOrder[k - 1])|)
  }

  /** The next species' turns, counted on a registry of the same sizes. */
  lemma PassTurnsNext(r0: map<string, SpeciesInfo>, k: nat)
    requires k < |SpeciesOrder| && SpeciesOrder[k] in r0
    ensures PassTurns(r0, k) + Turns(SpeciesOrder[k], |r0[SpeciesOrder[k]].list|) == PassTurns(r0, k + 1)
  {
  }

  /** Every turn of update_species, in key order. */
  function UpdateOrder(reg: map<string, SpeciesInfo>): seq<(string, nat)>
  {
    PassTurns(reg, |SpeciesOrder|)
  }

  /** `after` is `before` once the members named by `turns` have run their updates one after the other. */
  ghost predicate Ran(before: map<string, SpeciesInfo>, turns: seq<(string, nat)>, snap: Monolithic.Snapshot,
                      draws: TickDraws, math: MathLib, after: map<string, SpeciesInfo>)
    decreases |turns|
  {
    if turns == [] then after == before
    else
      var last := turns[|turns| - 1];
      exists mid :: MemberUpdated(mid, last.0, last.1, snap, draws, math, after)
                 && Ran(before, turns[..|turns| - 1], snap, draws, math, mid)
  }

  /** One more turn extends a run. */
  lemma RanNext(before: map<string, SpeciesInfo>, turns: seq<(string, nat)>, snap: Monolithic.Snapshot, draws: TickDraws,
                math: MathLib, mid: map<string, SpeciesInfo>, name: string, i: nat, after: map<string, SpeciesInfo>)
    requires Ran(before, turns, snap, draws, math, mid) && MemberUpdated(mid, name, i, snap, draws, math, after)
    ensures Ran(before, turns + [(name, i)], snap, draws, math, after)
  {
    var longer := turns + [(name, i)];
    assert longer[..|longer| - 1] == turns && longer[|longer| - 1] == (name, i);
    assert MemberUpdated(mid, name, i, snap, draws, math, after) && Ran(before, longer[..|longer| - 1], snap, draws, math, mid);
  }

  /** A run over `prefix` and the first `i` members of `name`, followed by member `i`. */
  lemma RanNextTurn(before: map<string, SpeciesInfo>, prefix: seq<(string, nat)>, name: string, i: nat, snap: Monolithic.Snapshot,
                    draws: TickDraws, math: MathLib, mid: map<string, SpeciesInfo>, after: map<string, SpeciesInfo>)
    requires Ran(before, prefix + Turns(name, i), snap, draws, math, mid) && MemberUpdated(mid, name, i, snap, draws, math, after)
    ensures Ran(before, prefix + Turns(name, i + 1), snap, draws, math, after)
  {
    RanNext(before, prefix + Turns(name, i), snap, draws, math, mid, name, i, after);
    TurnsExtend(prefix, name, i);
  }

  /** The turns of one more member follow the earlier ones. */
  lemma TurnsExtend(prefix: seq<(string, nat)>, name: string, i: nat)
    ensures prefix + Turns(name, i) + [(name, i)] == prefix + Turns(name, i + 1)
  {
    assert Turns(name, i) + [(name, i)] == Turns(name, i + 1);
  }

  /** A run has one outcome: the update pass is a function of the registry and the draws. */
  lemma {:induction false} RanIsUnique(before: map<string, SpeciesInfo>, turns: seq<(string, nat)>, snap: Monolithic.Snapshot,
                                       draws: TickDraws, math: MathLib, a1: map<string, SpeciesInfo>, a2: map<string, SpeciesInfo>)
    requires Ran(before, turns, snap, draws, math, a1) && Ran(before, turns, snap, draws, math, a2)
    ensures a1 == a2
    decreases |turns|
  {
    if turns != [] {
      var last := turns[|turns| - 1];
      var m1 :| Ran(before, turns[..|turns| - 1], snap, draws, math, m1) && MemberUpdated(m1, last.0, last.1, snap, draws, math, a1);
      var m2 :| Ran(before, turns[..|turns| - 1], snap, draws, math, m2) && MemberUpdated(m2, last.0, last.1, snap, draws, math, a2);
      RanIsUnique(before, turns[..|turns| - 1], snap, draws, math, m1, m2);
      MemberUpdatedIsUnique(m1, last.0, last.1, snap, draws, math, a1, a2);
    }
  }

  /**
   * One member's turn in handle_reproduction: the species' can_reproduce,
   * then its reproduce (a grass draws its reproduction chance in both).
   */
  function BreedOne(name: string, ind: Individual, d: BirthDraws, w: int, h: int): (b: Birth)
    ensures b.offspring.None? ==> b.parent == ind
    ensures !ind.alive ==> b == Birth(ind, None)
    ensures b.offspring.Some? ==> Registered(name) && b.parent.energy >= ind.reproductionEnergyCost
    ensures b.offspring.Some? ==>
              b.offspring.value.alive && b.offspring.value.age == 0 && b.offspring.value.kind == KindOfName(name)
    ensures b.offspring.Some? && w >= 0 && h >= 0 ==> InWorld(b.offspring.value.position, w, h)
  {
    if name == "grass" then
      if Grasses.CanReproduce(ind, d.gate1) then Grasses.Reproduce(ind, d.gate2, d.ux, d.uy, w, h) else Birth(ind, None)
    else if name == "cow" then
      if Cows.CanReproduce(ind) then Cows.Reproduce(ind, d.ux, d.uy, w, h) else Birth(ind, None)
    else if name == "tiger" then
      if Tigers.CanReproduce(ind) then Tigers.Reproduce(ind, d.ux, d.uy, w, h) else Birth(ind, None)
    else
      ReproduceBase(ind)
  }

  /** A species' reproduction pass: the parents as they end up, and the offspring in parent order. */
  function Breed(name: string, list: seq<Individual>, draws: (string, nat) -> BirthDraws, w: int, h: int): (res: (seq<Individual>, seq<Individual>))
    ensures |res.0| == |list| && |res.1| <= |list|
    decreases |list|
  {
    if list == [] then ([], [])
    else
      var k := |list| - 1;
      assert forall i :: 0 <= i < k ==> list[..k][i] == list[i];
      var prev := Breed(name, list[..k], draws, w, h);
      var b := BreedOne(name, list[k], draws(name, k), w, h);
      (prev.0 + [b.parent], prev.1 + (if b.offspring.Some? then [b.offspring.value] else []))
  }

  /** An entry after its reproduction pass: the updated parents, then the offspring. */
  function Bred(name: string, info: SpeciesInfo, draws: (string, nat) -> BirthDraws, w: int, h: int): SpeciesInfo
  {
    var b := Breed(name, info.list, draws, w, h);
    info.(list := b.0 + b.1)
  }

  /** How many offspring an entry's reproduction pass yields. */
  function BirthCount(name: string, info: SpeciesInfo, draws: (string, nat) -> BirthDraws, w: int, h: int): nat
  {
    |Breed(name, info.list, draws, w, h).1|
  }

  /** One more member extends a reproduction pass by exactly that member's turn. */
  lemma BreedStep(name: string, list: seq<Individual>, i: nat, draws: (string, nat) -> BirthDraws, w: int, h: int)
    requires i < |list|
    ensures var b := BreedOne(name, list[i], draws(name, i), w, h);
      var prev := Breed(name, list[..i], draws, w, h);
      Breed(name, list[..i + 1], draws, w, h) == (prev.0 + [b.parent], prev.1 + (if b.offspring.Some? then [b.offspring.value] else []))
  {
    var l := list[..i + 1];
    assert l[..i] == list[..i];
    assert l[i] == list[i];
  }

  /** Each parent ends the pass as its own turn left it; the dead and the unready are untouched. */
  lemma {:induction false} BreedParents(name: string, list: seq<Individual>, draws: (string, nat) -> BirthDraws, w: int, h: int)
    ensures forall i :: 0 <= i < |list| ==> Breed(name, list, draws, w, h).0[i] == BreedOne(name, list[i], draws(name, i), w, h).parent
    decreases |list|
  {
    if list != [] {
      var k := |list| - 1;
      assert forall i :: 0 <= i < k ==> list[..k][i] == list[i];
      BreedParents(name, list[..k], draws, w, h);
    }
  }

  /** `o` is a fresh member of `name`'s species inside a `w` by `h` world. */
  predicate Newborn(name: string, o: Individual, w: int, h: int)
  {
    Registered(name) && o.alive && o.age == 0 && o.kind == KindOfName(name) && InWorld(o.position, w, h)
  }

  /** Every offspring of a pass is a newborn of the list's species, inside the world. */
  lemma {:induction false} BreedNewborns(name: string, list: seq<Individual>, draws: (string, nat) -> BirthDraws, w: int, h: int)
    requires w >= 0 && h >= 0
    ensures forall j :: 0 <= j < |Breed(name, list, draws, w, h).1| ==> Newborn(name, Breed(name, list, draws, w, h).1[j], w, h)
    decreases |list|
  {
    if list != [] {
      var k := |list| - 1;
      var prev := Breed(name, list[..k], draws, w, h).1;
      BreedNewborns(name, list[..k], draws, w, h);
      var b := BreedOne(name, list[k], draws(name, k), w, h);
      var off := Breed(name, list, draws, w, h).1;
      assert off == prev + (if b.offspring.Some? then [b.offspring.value] else []);
      forall j | 0 <= j < |off|
        ensures Newborn(name, off[j], w, h)
      {
        if j < |prev| {
          assert off[j] == prev[j];
        } else {
          assert off[j] == b.offspring.value;
        }
      }
    }
  }

  /** A list with no living member yields no offspring. */
  lemma {:induction false} BreedAllDead(name: string, list: seq<Individual>, draws: (string, nat) -> BirthDraws, w: int, h: int)
    requires forall i :: 0 <= i < |list| ==> !list[i].alive
    ensures Breed(name, list, draws, w, h).1 == []
    decreases |list|
  {
    if list != [] {
      var k := |list| - 1;
      assert forall i :: 0 <= i < k ==> list[..k][i] == list[i];
      BreedAllDead(name, list[..k], draws, w, h);
      assert !list[k].alive;
    }
  }

  /** How many entries population_history keeps. */
  const HistoryLimit: nat := 100

  /** The history after recording `counts`: the newest entries of `history + [counts]`, at most HistoryLimit of them. */
  function Recorded(history: seq<map<SpeciesType, int>>, counts: map<SpeciesType, int>): (r: seq<map<SpeciesType, int>>)
    ensures |r| == if |history| + 1 > HistoryLimit then HistoryLimit else |history| + 1
    ensures r[|r| - 1] == counts
    ensures forall j :: 0 <= j < |r| - 1 ==> r[j] == history[|history| + 1 - |r| + j]
  {
    var all := history + [counts];
    if |all| > HistoryLimit then all[|all| - HistoryLimit..] else all
  }

  /** The three population sizes (get_species_counts). */
  function PopulationCounts(registry: map<string, SpeciesInfo>): map<SpeciesType, int>
    requires "grass" in registry && "cow" in registry && "tiger" in registry
  {
    map[GrassType := |registry["grass"].list|, CowType := |registry["cow"].list|, TigerType := |registry["tiger"].list|]
  }

  /** BaseIndividualData of ecosystem.h without its pointer-valued id. */
  datatype IndividualData = IndividualData(position: Position, energy: real, age: int, alive: bool, maxEnergy: real)

  function DataOf(ind: Individual): IndividualData
  {
    IndividualData(ind.position, ind.energy, ind.age, ind.alive, ind.maxEnergy)
  }

  function Project(list: seq<Individual>): (r: seq<IndividualData>)
    ensures |r| == |list|
    ensures forall i :: 0 <= i < |list| ==> r[i] == DataOf(list[i])
  {
    seq(|list|, i requires 0 <= i < |list| => DataOf(list[i]))
  }

  /** The error std::map::at raises for a missing key. */
  const OutOfRange: string := "map::at"

  /** The names the engine registers, in key order. */
  const SpeciesOrder: seq<string> := ["cow", "grass", "tiger"]

  /** The three counter keys. */
  const AllTypes: set<SpeciesType> := {GrassType, CowType, TigerType}

  /** A pass of the engine that rewrites every species' entry in key order, one species at a time. */
  datatype Pass =
    | Seeding(spawn: SpawnDraws, w: int, h: int)
    | Breeding(birth: (string, nat) -> BirthDraws, w: int, h: int)
    | Cleaning

  /** What a pass makes of one species' entry. */
  function PassEntry(p: Pass, name: string, info: SpeciesInfo): SpeciesInfo
  {
    match p
    case Seeding(spawn, w, h) =>
      if Registered(name) && Seedable(info.initialCount, w, h) then info.(list := info.list + Spawned(name, info.initialCount, w, h, spawn)) else info
    case Breeding(birth, w, h) => Bred(name, info, birth, w, h)
    case Cleaning => info.(list := AliveOnly(info.list))
  }

  /** What a pass adds to the species' counter: its births, or its dead. */
  function PassCount(p: Pass, name: string, info: SpeciesInfo): int
  {
    match p
    case Seeding(_, _, _) => 0
    case Breeding(birth, w, h) => BirthCount(name, info, birth, w, h)
    case Cleaning => DeadCount(info.list)
  }

  /** `r0` after pass `p` has run on the first `k` names of SpeciesOrder. */
  ghost function Stepped(r0: map<string, SpeciesInfo>, k: nat, p: Pass): map<string, SpeciesInfo>
    requires "cow" in r0 && "grass" in r0 && "tiger" in r0
  {
    var r1 := if k > 0 then r0["cow" := PassEntry(p, "cow", r0["cow"])] else r0;
    var r2 := if k > 1 then r1["grass" := PassEntry(p, "grass", r0["grass"])] else r1;
    if k > 2 then r2["tiger" := PassEntry(p, "tiger", r0["tiger"])] else r2
  }

  /** The `k`-th step finds its entry untouched and changes only that entry. */
  lemma SteppedNext(r0: map<string, SpeciesInfo>, k: nat, p: Pass)
    requires "cow" in r0 && "grass" in r0 && "tiger" in r0 && k < |SpeciesOrder|
    ensures SpeciesOrder[k] in Stepped(r0, k, p) && Stepped(r0, k, p)[SpeciesOrder[k]] == r0[SpeciesOrder[k]]
    ensures Stepped(r0, k + 1, p) == Stepped(r0, k, p)[SpeciesOrder[k] := PassEntry(p, SpeciesOrder[k], r0[SpeciesOrder[k]])]
  {
    if k == 0 {
    } else if k == 1 {
    } else {
    }
  }

  /** After all three steps: the same keys, each registered entry stepped once, any other entry as it was. */
  lemma SteppedAll(r0: map<string, SpeciesInfo>, p: Pass)
    requires "cow" in r0 && "grass" in r0 && "tiger" in r0
    ensures Stepped(r0, 3, p).Keys == r0.Keys
    ensures forall n :: n in r0 ==> Stepped(r0, 3, p)[n] == if Registered(n) then PassEntry(p, n, r0[n]) else r0[n]
  {
  }

  /** The counters `s0` after pass `p` has counted the first `k` names of SpeciesOrder in `r0`. */
  ghost function Tallied(s0: map<SpeciesType, int>, r0: map<string, SpeciesInfo>, k: nat, p: Pass): map<SpeciesType, int>
    requires GrassType in s0 && CowType in s0 && TigerType in s0
    requires "cow" in r0 && "grass" in r0 && "tiger" in r0
  {
    var s1 := if k > 0 then s0[CowType := s0[CowType] + PassCount(p, "cow", r0["cow"])] else s0;
    var s2 := if k > 1 then s1[GrassType := s0[GrassType] + PassCount(p, "grass", r0["grass"])] else s1;
    if k > 2 then s2[TigerType := s0[TigerType] + PassCount(p, "tiger", r0["tiger"])] else s2
  }

  /** The `k`-th step adds to its own counter, which no earlier step touched. */
  lemma TalliedNext(s0: map<SpeciesType, int>, r0: map<string, SpeciesInfo>, k: nat, p: Pass)
    requires GrassType in s0 && CowType in s0 && TigerType in s0
    requires "cow" in r0 && "grass" in r0 && "tiger" in r0 && k < |SpeciesOrder|
    ensures TypeOfName(SpeciesOrder[k]) in Tallied(s0, r0, k, p)
    ensures Tallied(s0, r0, k + 1, p) == Tallied(s0, r0, k, p)[TypeOfName(SpeciesOrder[k]) :=
              Tallied(s0, r0, k, p)[TypeOfName(SpeciesOrder[k])] + PassCount(p, SpeciesOrder[k], r0[SpeciesOrder[k]])]
  {
    if k == 0 {
    } else if k == 1 {
    } else {
    }
  }

  /** After all three steps every counter has grown by its species' amount. */
  lemma TalliedAll(s0: map<SpeciesType, int>, r0: map<string, SpeciesInfo>, p: Pass)
    requires GrassType in s0 && CowType in s0 && TigerType in s0
    requires "cow" in r0 && "grass" in r0 && "tiger" in r0
    ensures Tallied(s0, r0, 3, p).Keys == s0.Keys
    ensures forall n :: Registered(n) ==> Tallied(s0, r0, 3, p)[TypeOfName(n)] == s0[TypeOfName(n)] + PassCount(p, n, r0[n])
  {
  }

  /** After the whole reproduction pass every entry is bred and every counter has grown by its births. */
  lemma BredAll(r0: map<string, SpeciesInfo>, s0: map<SpeciesType, int>, draws: (string, nat) -> BirthDraws, w: int, h: int,
                reg: map<string, SpeciesInfo>, stats: map<SpeciesType, int>)
    requires "cow" in r0 && "grass" in r0 && "tiger" in r0 && forall n :: n in r0 <==> Registered(n)
    requires GrassType in s0 && CowType in s0 && TigerType in s0
    requires reg == Stepped(r0, 3, Breeding(draws, w, h)) && stats == Tallied(s0, r0, 3, Breeding(draws, w, h))
    ensures reg.Keys == r0.Keys
    ensures forall n :: n in reg ==>
      reg[n] == Bred(n, r0[n], draws, w, h) && stats[TypeOfName(n)] == s0[TypeOfName(n)] + BirthCount(n, r0[n], draws, w, h)
  {
    SteppedAll(r0, Breeding(draws, w, h));
    TalliedAll(s0, r0, Breeding(draws, w, h));
  }

  class EcosystemState {
    var config: EcosystemConfig
    var timeStep: int
    const speciesRegistry: SpeciesRegistry
    const births: SpeciesStatistics
    const deaths: SpeciesStatistics
    var populationHistory: seq<map<SpeciesType, int>>

    ghost predicate Valid()
      reads this, speciesRegistry, births, deaths
    {
      speciesRegistry.Valid() && speciesRegistry.order == SpeciesOrder
      && births != deaths
      && births.statistics.Keys == AllTypes && deaths.statistics.Keys == AllTypes
      && |populationHistory| <= HistoryLimit
    }

    constructor(config: EcosystemConfig, draws: SpawnDraws)
      requires Seedable(config.initialGrass, config.worldWidth, config.worldHeight)
      requires Seedable(config.initialCows, config.worldWidth, config.worldHeight)
      requires Seedable(config.initialTigers, config.worldWidth, config.worldHeight)
      ensures Valid()
      ensures this.config == config && timeStep == 0 && populationHistory == []
      ensures fresh(speciesRegistry) && fresh(births) && fresh(deaths)
      ensures births.statistics == ZeroCounts && deaths.statistics == ZeroCounts
      ensures speciesRegistry.registry.Keys == {"grass", "cow", "tiger"}
      ensures speciesRegistry.registry["grass"] ==
        SpeciesInfo("grass", Spawned("grass", config.initialGrass, config.worldWidth, config.worldHeight, draws), config.initialGrass)
      ensures speciesRegistry.registry["cow"] ==
        SpeciesInfo("cow", Spawned("cow", config.initialCows, config.worldWidth, config.worldHeight, draws), config.initialCows)
      ensures speciesRegistry.registry["tiger"] ==
        SpeciesInfo("tiger", Spawned("tiger", config.initialTigers, config.worldWidth, config.worldHeight, draws), config.initialTigers)
    {
      this.config := config;
      timeStep := 0;
      speciesRegistry := new SpeciesRegistry(config);
      births := new SpeciesStatistics();
      deaths := new SpeciesStatistics();
      populationHistory := [];
      new;
      ghost var empty := speciesRegistry.registry;
      SeedableAtStart(config, empty);
      InitializePopulations(draws);
      SeededAtStart(config, draws, empty, speciesRegistry.registry);
    }

    /** Under the engine's invariant the registry holds exactly the three species. */
    lemma SpeciesKeys()
      requires Valid()
      ensures "cow" in speciesRegistry.registry && "grass" in speciesRegistry.registry && "tiger" in speciesRegistry.registry
      ensures forall n :: n in speciesRegistry.registry <==> Registered(n)
    {
      assert forall n :: n in SpeciesOrder <==> Registered(n);
    }

    /** One step of the seeding loop: the `i`-th individual of `name`, at the position its draws give. */
    method SpawnOne(name: string, i: nat, draws: SpawnDraws)
      requires Valid() && Registered(name) && config.worldWidth != 0 && config.worldHeight != 0
      modifies speciesRegistry
      ensures Valid()
      ensures speciesRegistry.registry == old(speciesRegistry.registry)[name := old(speciesRegistry.registry)[name].(list :=
                old(speciesRegistry.registry)[name].list + [NewOfName(name, SpawnPosition(draws(name, i), config.worldWidth, config.worldHeight))])]
    {
      var x := draws(name, i).0 % config.worldWidth;
      var y := draws(name, i).1 % config.worldHeight;
      speciesRegistry.AddIndividual(name, NewOfName(name, Position(x as real, y as real)));
    }

    /** Appends one species' initial individuals. */
    method SpawnSpecies(name: string, draws: SpawnDraws)
      requires Valid() && Registered(name) && name in speciesRegistry.registry
      requires Seedable(speciesRegistry.registry[name].initialCount, config.worldWidth, config.worldHeight)
      modifies speciesRegistry
      ensures Valid()
      ensures speciesRegistry.registry == old(speciesRegistry.registry)[name :=
        old(speciesRegistry.registry)[name].(list := old(speciesRegistry.registry)[name].list +
          Spawned(name, old(speciesRegistry.registry)[name].initialCount, config.worldWidth, config.worldHeight, draws))]
    {
      var w, h := config.worldWidth, config.worldHeight;
      var count := speciesRegistry.GetInitialCount(name);
      ghost var start := speciesRegistry.registry;
      ghost var before := start[name];
      assert before.list + Spawned(name, 0, w, h, draws) == before.list;
      assert start[name := before] == start;
      var i := 0;
      while i < count
        invariant 0 <= i && (count >= 0 ==> i <= count) && (count < 0 ==> i == 0)
        invariant Valid() && config.worldWidth == w && config.worldHeight == h
        invariant i == 0 || (w != 0 && h != 0)
        invariant speciesRegistry.registry == start[name := before.(list := before.list + Spawned(name, i, w, h, draws))]
      {
        assert w != 0 && h != 0;
        ghost var prev := speciesRegistry.registry;
        SpawnOne(name, i, draws);
        SpawnExtends(start, name, before, i, w, h, draws, prev);
        i := i + 1;
      }
      assert Spawned(name, i, w, h, draws) == Spawned(name, count, w, h, draws);
    }

    /** Appends every species' initial individuals at positions drawn from `draws`. */
    method InitializePopulations(draws: SpawnDraws)
      requires Valid() && SeedableWorld(speciesRegistry.registry, config.worldWidth, config.worldHeight)
      modifies speciesRegistry
      ensures Valid()
      ensures speciesRegistry.registry.Keys == old(speciesRegistry.registry).Keys
      ensures forall n :: n in speciesRegistry.registry ==>
        speciesRegistry.registry[n] == old(speciesRegistry.registry)[n].(list := old(speciesRegistry.registry)[n].list +
          Spawned(n, old(speciesRegistry.registry)[n].initialCount, config.worldWidth, config.worldHeight, draws))
    {
      var w, h := config.worldWidth, config.worldHeight;
      SpeciesKeys();
      ghost var r0 := speciesRegistry.registry;
      ghost var p := Seeding(draws, w, h);
      var names := speciesRegistry.GetAllSpeciesNames();
      var k := 0;
      while k < |names|
        invariant 0 <= k <= |names| && names == SpeciesOrder
        invariant Valid() && config.worldWidth == w && config.worldHeight == h
        invariant speciesRegistry.registry == Stepped(r0, k, p)
      {
        SteppedNext(r0, k, p);
        SpawnSpecies(names[k], draws);
        k := k + 1;
      }
      SteppedAll(r0, p);
      SpeciesKeys();
    }

    /** The tick snapshot: world size, time step and the rows of the living grass; std::map::at fails on a missing species. */
    method GetEcosystemState() returns (r: Result<Monolithic.Snapshot, string>)
      ensures ("grass" in speciesRegistry.registry && "cow" in speciesRegistry.registry && "tiger" in speciesRegistry.registry) ==>
        r == Success(Monolithic.Snapshot(config.worldWidth, config.worldHeight, timeStep, Grasses.AliveRows(speciesRegistry.registry["grass"].list)))
      ensures !("grass" in speciesRegistry.registry && "cow" in speciesRegistry.registry && "tiger" in speciesRegistry.registry) ==>
        r == Failure(OutOfRange)
      ensures Valid() ==> r.Success?
    {
      var reg := speciesRegistry.registry;
      if !("grass" in reg && "cow" in reg && "tiger" in reg) {
        return Failure(OutOfRange);
      }
      var grass := reg["grass"].list;
      var rows: seq<Grasses.GrassRow> := [];
      var i := 0;
      while i < |grass|
        invariant 0 <= i <= |grass|
        invariant rows == Grasses.AliveRows(grass[..i])
      {
        assert grass[..i + 1][..i] == grass[..i];
        if grass[i].alive {
          rows := rows + [Grasses.GrassRow(grass[i].position, i)];
        }
        i := i + 1;
      }
      assert grass[..|grass|] == grass;
      r := Success(Monolithic.Snapshot(config.worldWidth, config.worldHeight, timeStep, rows));
    }

    /** One member's update, written back into the live lists it changes. */
    method UpdateAt(name: string, i: nat, snap: Monolithic.Snapshot, draws: TickDraws, math: MathLib)
      requires Valid() && name in speciesRegistry.registry && i < |speciesRegistry.registry[name].list|
      modifies speciesRegistry
      ensures Valid()
      ensures Evolved(old(speciesRegistry.registry), speciesRegistry.registry)
      ensures MemberUpdated(old(speciesRegistry.registry), name, i, snap, draws, math, speciesRegistry.registry)
    {
      SpeciesKeys();
      if name == "grass" {
        UpdateGrassAt(i, snap, math);
      } else if name == "cow" {
        UpdateCowAt(i, snap, draws.angle(name, i), math);
      } else {
        UpdateTigerAt(i, snap, draws.angle(name, i), draws.hunt(i), math);
      }
    }

    /** A grass's update changes only that grass. */
    method UpdateGrassAt(i: nat, snap: Monolithic.Snapshot, math: MathLib)
      requires Valid() && "grass" in speciesRegistry.registry && i < |speciesRegistry.registry["grass"].list|
      modifies speciesRegistry
      ensures Valid()
      ensures Evolved(old(speciesRegistry.registry), speciesRegistry.registry)
      ensures GrassTurn(old(speciesRegistry.registry), i, snap, math, speciesRegistry.registry)
    {
      SpeciesKeys();
      var reg := speciesRegistry.registry;
      var lists := LiveLists(reg);
      var r := Monolithic.GrassUpdate(reg["grass"].list[i], i, snap, lists, math);
      var info := reg["grass"].(list := reg["grass"].list[i := r]);
      EvolvedByWrite(reg, "grass", info.list);
      KeysInOrderWrite(reg, speciesRegistry.order, "grass", info);
      speciesRegistry.registry := reg["grass" := info];
      assert Monolithic.GrassUpdated(reg["grass"].list[i], i, snap, lists, math, r);
    }

    /** A cow's update writes the grass list it grazed, then the cow itself. */
    method UpdateCowAt(i: nat, snap: Monolithic.Snapshot, angle: real, math: MathLib)
      requires Valid() && "cow" in speciesRegistry.registry && i < |speciesRegistry.registry["cow"].list|
      modifies speciesRegistry
      ensures Valid()
      ensures Evolved(old(speciesRegistry.registry), speciesRegistry.registry)
      ensures CowTurn(old(speciesRegistry.registry), i, snap, angle, math, speciesRegistry.registry)
    {
      SpeciesKeys();
      var reg := speciesRegistry.registry;
      var lists := LiveLists(reg);
      var r, grass' := Monolithic.CowUpdate(reg["cow"].list[i], snap, lists, angle, math);
      WriteBack(reg, speciesRegistry.order, "grass", grass', "cow", i, r);
      speciesRegistry.registry := reg["grass" := reg["grass"].(list := grass')]["cow" := reg["cow"].(list := reg["cow"].list[i := r])];
      CowTurnOf(reg, i, snap, angle, math, r, grass');
    }

    /** A tiger's update writes the cow list it hunted, then the tiger itself. */
    method UpdateTigerAt(i: nat, snap: Monolithic.Snapshot, angle: real, draw: nat -> real, math: MathLib)
      requires Valid() && "tiger" in speciesRegistry.registry && i < |speciesRegistry.registry["tiger"].list|
      modifies speciesRegistry
      ensures Valid()
      ensures Evolved(old(speciesRegistry.registry), speciesRegistry.registry)
      ensures TigerTurn(old(speciesRegistry.registry), i, snap, angle, draw, math, speciesRegistry.registry)
    {
      SpeciesKeys();
      var reg := speciesRegistry.registry;
      var lists := LiveLists(reg);
      var r, cows' := Monolithic.TigerUpdate(reg["tiger"].list[i], snap, lists, angle, draw, math);
      WriteBack(reg, speciesRegistry.order, "cow", cows', "tiger", i, r);
      speciesRegistry.registry := reg["cow" := reg["cow"].(list := cows')]["tiger" := reg["tiger"].(list := reg["tiger"].list[i := r])];
      TigerTurnOf(reg, i, snap, angle, draw, math, r, cows');
    }

    /**
     * Updates every member of every species, in key order, each reading the
     * registry as the members before it left it.
     */
    method UpdateSpecies(snap: Monolithic.Snapshot, draws: TickDraws, math: MathLib)
      requires Valid()
      modifies speciesRegistry
      ensures Valid()
      ensures Ran(old(speciesRegistry.registry), UpdateOrder(old(speciesRegistry.registry)), snap, draws, math, speciesRegistry.registry)
      ensures Evolved(old(speciesRegistry.registry), speciesRegistry.registry)
    {
      ghost var r0 := speciesRegistry.registry;
      var names := speciesRegistry.GetAllSpeciesNames();
      var k := 0;
      while k < |names|
        invariant 0 <= k <= |names| && names == speciesRegistry.order && names == SpeciesOrder
        invariant Valid()
        invariant Evolved(r0, speciesRegistry.registry)
        invariant Ran(r0, PassTurns(r0, k), snap, draws, math, speciesRegistry.registry)
      {
        SpeciesKeys();
        UpdateMembers(names[k], snap, draws, math, r0, PassTurns(r0, k));
        PassTurnsNext(r0, k);
        k := k + 1;
      }
    }

    /** The inner loop of update_species: every member of `name` in list order. */
    method UpdateMembers(name: string, snap: Monolithic.Snapshot, draws: TickDraws, math: MathLib,
                         ghost r0: map<string, SpeciesInfo>, ghost prefix: seq<(string, nat)>)
      requires Valid() && name in r0 && Evolved(r0, speciesRegistry.registry)
      requires Ran(r0, prefix, snap, draws, math, speciesRegistry.registry)
      modifies speciesRegistry
      ensures Valid()
      ensures Evolved(r0, speciesRegistry.registry)
      ensures Ran(r0, prefix + Turns(name, |r0[name].list|), snap, draws, math, speciesRegistry.registry)
    {
      ghost var start := speciesRegistry.registry;
      var list := speciesRegistry.GetSpeciesList(name);
      assert speciesRegistry.registry == start;
      assert prefix + Turns(name, 0) == prefix;
      var i := 0;
      while i < |list|
        invariant 0 <= i <= |list| && |list| == |r0[name].list|
        invariant Valid()
        invariant name in speciesRegistry.registry && |speciesRegistry.registry[name].list| == |list|
        invariant Evolved(r0, speciesRegistry.registry)
        invariant Ran(r0, prefix + Turns(name, i), snap, draws, math, speciesRegistry.registry)
      {
        ghost var mid := speciesRegistry.registry;
        UpdateAt(name, i, snap, draws, math);
        EvolvedTransitive(r0, mid, speciesRegistry.registry);
        RanNextTurn(r0, prefix, name, i, snap, draws, math, mid, speciesRegistry.registry);
        i := i + 1;
      }
    }

    /** The reproduction loop over one list: each member's turn, offspring collected in member order. */
    method BreedList(name: string, list: seq<Individual>, draws: (string, nat) -> BirthDraws, w: int, h: int)
      returns (parents: seq<Individual>, newborn: seq<Individual>)
      ensures (parents, newborn) == Breed(name, list, draws, w, h)
    {
      parents, newborn := [], [];
      var i := 0;
      while i < |list|
        invariant 0 <= i <= |list|
        invariant (parents, newborn) == Breed(name, list[..i], draws, w, h)
      {
        assert list[..i + 1][..i] == list[..i];
        var b := BreedOne(name, list[i], draws(name, i), w, h);
        assert list[..i + 1][i] == list[i];
        parents := parents + [b.parent];
        newborn := newborn + if b.offspring.Some? then [b.offspring.value] else [];
        BreedStep(name, list, i, draws, w, h);
        i := i + 1;
      }
      assert list[..|list|] == list;
    }

    /** One species' reproduction: parents updated in place, offspring appended, births counted. */
    method BreedSpecies(name: string, draws: (string, nat) -> BirthDraws, w: int, h: int)
      requires Valid() && name in speciesRegistry.registry
      modifies speciesRegistry, births
      ensures Valid()
      ensures speciesRegistry.registry == old(speciesRegistry.registry)[name := Bred(name, old(speciesRegistry.registry)[name], draws, w, h)]
      ensures births.statistics == old(births.statistics)[TypeOfName(name) :=
                old(births.statistics)[TypeOfName(name)] + BirthCount(name, old(speciesRegistry.registry)[name], draws, w, h)]
    {
      var born := BreedInRegistry(name, draws, w, h);
      births.Increment(TypeOfName(name), born);
    }

    /** The registry's part of BreedSpecies: parents written back, offspring appended; returns how many were born. */
    method BreedInRegistry(name: string, draws: (string, nat) -> BirthDraws, w: int, h: int) returns (born: nat)
      requires Valid() && name in speciesRegistry.registry
      modifies speciesRegistry
      ensures Valid()
      ensures speciesRegistry.registry == old(speciesRegistry.registry)[name := Bred(name, old(speciesRegistry.registry)[name], draws, w, h)]
      ensures born == BirthCount(name, old(speciesRegistry.registry)[name], draws, w, h)
    {
      ghost var start := speciesRegistry.registry;
      var list := speciesRegistry.GetSpeciesList(name);
      assert speciesRegistry.registry == start;
      var parents, newborn := BreedList(name, list, draws, w, h);
      ghost var bred := Bred(name, start[name], draws, w, h);
      assert bred == start[name].(list := parents + newborn);
      KeysInOrderWrite(start, speciesRegistry.order, name, start[name].(list := parents));
      speciesRegistry.registry := speciesRegistry.registry[name := speciesRegistry.registry[name].(list := parents)];
      speciesRegistry.ExtendIndividuals(name, newborn);
      OverrideTwice(start, name, start[name].(list := parents), bred);
      born := |newborn|;
    }

    /** handle_reproduction: every species in key order, offspring following the existing members. */
    method HandleReproduction(draws: (string, nat) -> BirthDraws)
      requires Valid()
      modifies speciesRegistry, births
      ensures Valid()
      ensures speciesRegistry.registry.Keys == old(speciesRegistry.registry).Keys
      ensures forall n :: n in speciesRegistry.registry ==>
        speciesRegistry.registry[n] == Bred(n, old(speciesRegistry.registry)[n], draws, config.worldWidth, config.worldHeight)
        && births.statistics[TypeOfName(n)] ==
             old(births.statistics)[TypeOfName(n)] + BirthCount(n, old(speciesRegistry.registry)[n], draws, config.worldWidth, config.worldHeight)
    {
      var state := GetEcosystemState();
      var w, h := state.value.worldWidth, state.value.worldHeight;
      SpeciesKeys();
      ghost var r0 := speciesRegistry.registry;
      ghost var s0 := births.statistics;
      ghost var p := Breeding(draws, w, h);
      var names := speciesRegistry.GetAllSpeciesNames();
      var k := 0;
      while k < |names|
        invariant 0 <= k <= |names| && names == SpeciesOrder
        invariant Valid()
        invariant speciesRegistry.registry == Stepped(r0, k, p)
        invariant births.statistics == Tallied(s0, r0, k, p)
      {
        SteppedNext(r0, k, p);
        TalliedNext(s0, r0, k, p);
        BreedSpecies(names[k], draws, w, h);
        k := k + 1;
      }
      BredAll(r0, s0, draws, w, h, speciesRegistry.registry, births.statistics);
    }

    /** The current size of each species' list, dead members included. */
    method GetSpeciesCounts() returns (stats: map<SpeciesType, int>)
      requires Valid()
      ensures stats == PopulationCounts(speciesRegistry.registry)
    {
      var counts := new SpeciesStatistics();
      var names := speciesRegistry.GetAllSpeciesNames();
      var k := 0;
      while k < |names|
        invariant 0 <= k <= |names| && names == SpeciesOrder
        invariant counts.statistics.Keys == AllTypes
        invariant forall j :: 0 <= j < |names| ==>
          counts.statistics[TypeOfName(names[j])] == if j < k then |speciesRegistry.registry[names[j]].list| else 0
      {
        counts.SetCount(TypeOfName(names[k]), speciesRegistry.GetSpeciesCount(names[k]));
        k := k + 1;
      }
      stats := counts.statistics;
      assert stats[GrassType] == |speciesRegistry.registry["grass"].list| by {
        assert TypeOfName(names[1]) == GrassType;
      }
      assert stats[CowType] == |speciesRegistry.registry["cow"].list| by {
        assert TypeOfName(names[0]) == CowType;
      }
      assert stats[TigerType] == |speciesRegistry.registry["tiger"].list| by {
        assert TypeOfName(names[2]) == TigerType;
      }
    }

    /** Records the current counts, keeping the newest HistoryLimit entries. */
    method UpdateStatistics()
      requires Valid()
      modifies this
      ensures Valid()
      ensures config == old(config) && timeStep == old(timeStep)
      ensures populationHistory == Recorded(old(populationHistory), PopulationCounts(speciesRegistry.registry))
    {
      var stats := GetSpeciesCounts();
      populationHistory := populationHistory + [stats];
      if |populationHistory| > HistoryLimit {
        populationHistory := populationHistory[|populationHistory| - HistoryLimit..];
      }
    }

    /** One species' cleanup: its dead counted into `deaths`, then removed. */
    method CleanupSpecies(name: string)
      requires Valid() && name in speciesRegistry.registry
      modifies speciesRegistry, deaths
      ensures Valid()
      ensures speciesRegistry.registry == old(speciesRegistry.registry)[name :=
                old(speciesRegistry.registry)[name].(list := AliveOnly(old(speciesRegistry.registry)[name].list))]
      ensures deaths.statistics == old(deaths.statistics)[TypeOfName(name) :=
                old(deaths.statistics)[TypeOfName(name)] + DeadCount(old(speciesRegistry.registry)[name].list)]
    {
      ghost var r0 := speciesRegistry.registry;
      var list := speciesRegistry.GetSpeciesList(name);
      assert speciesRegistry.registry == r0;
      var deadCount := DeadCount(list);
      ghost var t := TypeOfName(name);
      ghost var d0 := deaths.statistics;
      assert list == r0[name].list;
      assert CountIn(d0, t) == d0[t];
      deaths.Increment(TypeOfName(name), deadCount);
      assert deaths.statistics == d0[t := d0[t] + DeadCount(r0[name].list)];
      assert speciesRegistry.registry == r0;
      assert speciesRegistry.Info(name) == r0[name];
      speciesRegistry.FilterAlive(name);
      assert speciesRegistry.registry == r0[name := r0[name].(list := AliveOnly(r0[name].list))];
    }

    /** Counts the dead of every species into `deaths` and removes them, keeping the living in order. */
    method CleanupDead()
      requires Valid()
      modifies speciesRegistry, deaths
      ensures Valid()
      ensures speciesRegistry.registry.Keys == old(speciesRegistry.registry).Keys
      ensures forall n :: n in speciesRegistry.registry ==>
        speciesRegistry.registry[n] == old(speciesRegistry.registry)[n].(list := AliveOnly(old(speciesRegistry.registry)[n].list))
      ensures forall n :: n in speciesRegistry.registry ==>
        deaths.statistics[TypeOfName(n)] == old(deaths.statistics)[TypeOfName(n)] + DeadCount(old(speciesRegistry.registry)[n].list)
      ensures forall n :: n in speciesRegistry.registry ==>
        |speciesRegistry.registry[n].list| + DeadCount(old(speciesRegistry.registry)[n].list) == |old(speciesRegistry.registry)[n].list|
    {
      SpeciesKeys();
      ghost var r0 := speciesRegistry.registry;
      ghost var s0 := deaths.statistics;
      ghost var p := Cleaning;
      var names := speciesRegistry.GetAllSpeciesNames();
      var k := 0;
      while k < |names|
        invariant 0 <= k <= |names| && names == SpeciesOrder
        invariant Valid()
        invariant speciesRegistry.registry == Stepped(r0, k, p)
        invariant deaths.statistics == Tallied(s0, r0, k, p)
      {
        SteppedNext(r0, k, p);
        TalliedNext(s0, r0, k, p);
        CleanupSpecies(names[k]);
        k := k + 1;
      }
      SteppedAll(r0, p);
      TalliedAll(s0, r0, p);
      SpeciesKeys();
      forall n | n in speciesRegistry.registry
        ensures |speciesRegistry.registry[n].list| + DeadCount(r0[n].list) == |r0[n].list|
      {
        AliveAndDeadPartition(r0[n].list);
      }
    }

    /** The data of the living members of one list, in list order. */
    method AliveData(list: seq<Individual>) returns (individuals: seq<IndividualData>)
      ensures individuals == Project(AliveOnly(list))
      ensures |individuals| + DeadCount(list) == |list|
      ensures forall j :: 0 <= j < |individuals| ==> individuals[j].alive
    {
      individuals := [];
      var i := 0;
      while i < |list|
        invariant 0 <= i <= |list|
        invariant individuals == Project(AliveOnly(list[..i]))
      {
        assert list[..i + 1][..i] == list[..i];
        if list[i].alive {
          individuals := individuals + [DataOf(list[i])];
        }
        i := i + 1;
      }
      assert list[..|list|] == list;
      AliveAndDeadPartition(list);
      var alive := AliveOnly(list);
      AliveOnlyMembers(list);
      assert forall j :: 0 <= j < |alive| ==> alive[j] in alive;
    }

    /** The living members of every species, in list order. */
    method GetSpeciesData() returns (data: map<string, seq<IndividualData>>)
      requires Valid()
      ensures data.Keys == speciesRegistry.registry.Keys
      ensures forall n :: n in data ==> data[n] == Project(AliveOnly(speciesRegistry.registry[n].list))
    {
      data := map[];
      var names := speciesRegistry.GetAllSpeciesNames();
      var k := 0;
      while k < |names|
        invariant 0 <= k <= |names| && names == speciesRegistry.order
        invariant forall n :: n in data <==> n in names[..k]
        invariant forall n :: n in data ==> n in speciesRegistry.registry && data[n] == Project(AliveOnly(speciesRegistry.registry[n].list))
      {
        assert names[..k + 1] == names[..k] + [names[k]];
        var individuals := AliveData(speciesRegistry.registry[names[k]].list);
        data := data[names[k] := individuals];
        k := k + 1;
      }
      assert names[..|names|] == names;
    }

    /**
     * Starts over with `newConfig`'s world size; the initial counts stay
     * those the registry was constructed with.
     */
    method Reset(newConfig: EcosystemConfig, draws: SpawnDraws)
      requires Valid() && SeedableWorld(speciesRegistry.registry, newConfig.worldWidth, newConfig.worldHeight)
      modifies this, speciesRegistry, births, deaths
      ensures Valid()
      ensures config == newConfig && timeStep == 0 && populationHistory == []
      ensures births.statistics == ZeroCounts && deaths.statistics == ZeroCounts
      ensures speciesRegistry.registry.Keys == old(speciesRegistry.registry).Keys
      ensures forall n :: n in speciesRegistry.registry ==>
        Registered(n) &&
        speciesRegistry.registry[n] == old(speciesRegistry.registry)[n].(list :=
          Spawned(n, old(speciesRegistry.registry)[n].initialCount, newConfig.worldWidth, newConfig.worldHeight, draws))
    {
      config := newConfig;
      timeStep := 0;
      ghost var r0 := speciesRegistry.registry;
      SpeciesKeys();
      speciesRegistry.ClearAll();
      ghost var r1 := speciesRegistry.registry;
      ResetCounters();
      populationHistory := [];
      Reseedable(r0, r1, newConfig.worldWidth, newConfig.worldHeight);
      InitializePopulations(draws);
      SpeciesKeys();
      Reseeded(r0, r1, speciesRegistry.registry, newConfig.worldWidth, newConfig.worldHeight, draws);
    }

    /** Both counters back to zero for the three species. */
    method ResetCounters()
      requires births != deaths && births.statistics.Keys == AllTypes && deaths.statistics.Keys == AllTypes
      modifies births, deaths
      ensures births.statistics == ZeroCounts && deaths.statistics == ZeroCounts
    {
      births.Reset();
      deaths.Reset();
      assert births.statistics == ZeroCounts;
    }

    /** The species whose list is empty, in key order. */
    method CheckExtinction() returns (extinct: seq<string>)
      requires Valid()
      ensures Sorted(extinct)
      ensures forall n :: n in extinct <==> n in speciesRegistry.registry && |speciesRegistry.registry[n].list| == 0
    {
      extinct := [];
      var names := speciesRegistry.GetAllSpeciesNames();
      var k := 0;
      while k < |names|
        invariant 0 <= k <= |names| && names == speciesRegistry.order
        invariant Sorted(extinct)
        invariant forall n :: n in extinct ==> exists j :: 0 <= j < k && names[j] == n
        invariant forall j :: 0 <= j < k ==> (names[j] in extinct <==> |speciesRegistry.registry[names[j]].list| == 0)
      {
        if speciesRegistry.GetSpeciesCount(names[k]) == 0 {
          forall x | x in extinct
            ensures Less(x, names[k])
          {
            var j :| 0 <= j < k && names[j] == x;
          }
          SortedIsDistinct(names);
          extinct := extinct + [names[k]];
        } else {
          SortedIsDistinct(names);
        }
        k := k + 1;
      }
      forall n | n in speciesRegistry.registry
        ensures n in extinct <==> |speciesRegistry.registry[n].list| == 0
      {
        var j :| 0 <= j < |names| && names[j] == n;
      }
    }
  }
}
