/**
 * The older all-in-one revision of the species classes, the one the ecosystem
 * state manager is written against. Its updates read a per-tick snapshot:
 * the world size and the grass positions are copied when the snapshot is
 * taken, while the species lists are the live ones, so a kill made earlier in
 * a pass is seen by every later reader.
 *
 * The constructors, `can_reproduce` and `reproduce` of this revision are the
 * same as the split revision's and are shared with it.
 */
module Monolithic {
  import opened Geometry
  import opened Wrappers
  import opened Individuals
  import opened Animals
  import opened Grasses
  import Cows
  import Tigers

  /** What a tick's snapshot copies: the world size, the time step, and one row per living grass. */
  datatype Snapshot = Snapshot(worldWidth: int, worldHeight: int, timeStep: int, grassRows: seq<GrassRow>)

  /** The live lists the snapshot's shared pointers reach. */
  datatype Lists = Lists(grass: seq<Individual>, cow: seq<Individual>, tiger: seq<Individual>)

  /** `Species::update` of this revision: it only decays the reproduction cooldown; there is no aging here. */
  function BaseUpdate(ind: Individual): (r: Individual)
    ensures !ind.alive ==> r == ind
    ensures r.age == ind.age && r.alive == ind.alive && r.deathReason == ind.deathReason
    ensures ind.alive && ind.reproductionCooldown > 0 ==> r.reproductionCooldown == ind.reproductionCooldown - 1
    ensures ind.reproductionCooldown >= 0 ==> r.reproductionCooldown >= 0
    ensures r == ind.(reproductionCooldown := r.reproductionCooldown)
  {
    if ind.alive && ind.reproductionCooldown > 0
    then ind.(reproductionCooldown := ind.reproductionCooldown - 1)
    else ind
  }

  /**
   * The food lists `find_nearest_food` of this revision searches: "grass",
   * "cow" and "tiger" reach the snapshot's lists, and any other food type is
   * skipped, which is the same as an empty list.
   */
  function SnapshotFoodLists(lists: Lists, foodTypes: seq<string>): (r: seq<seq<Individual>>)
    ensures |r| == |foodTypes|
    ensures forall i :: 0 <= i < |r| && foodTypes[i] == "grass" ==> r[i] == lists.grass
    ensures forall i :: 0 <= i < |r| && foodTypes[i] == "cow" ==> r[i] == lists.cow
    ensures forall i :: 0 <= i < |r| && foodTypes[i] == "tiger" ==> r[i] == lists.tiger
    ensures forall i :: 0 <= i < |r| && foodTypes[i] !in {"grass", "cow", "tiger"} ==> r[i] == []
  {
    seq(|foodTypes|, i requires 0 <= i < |foodTypes| =>
      if foodTypes[i] == "grass" then lists.grass
      else if foodTypes[i] == "cow" then lists.cow
      else if foodTypes[i] == "tiger" then lists.tiger
      else [])
  }

  /** Whether anything is left once the caller's own row is taken out. */
  predicate OthersRemain(rows: seq<GrassRow>, selfIndex: nat)
  {
    |rows| > (if SelfRow(rows, selfIndex) >= 0 then 1 else 0)
  }

  /**
   * `calculate_nearby_grass_density_optimized` of this revision: the caller's
   * own row is left out whenever it is found, and no remaining row means
   * density 0.
   */
  method OptimizedDensity(self: Individual, selfIndex: nat, rows: seq<GrassRow>, math: MathLib) returns (d: real)
    ensures !OthersRemain(rows, selfIndex) ==> d == 0.0
    ensures OthersRemain(rows, selfIndex) ==>
              d == DensityOf(CountNear(rows, self.position, self.competitionRadius, SelfRow(rows, selfIndex)),
                             self.competitionRadius, 400.0, math)
    ensures math.pi > 0.0 ==> 0.0 <= d <= 1.0
  {
    if |rows| == 0 {
      return 0.0;
    }
    var selfRow := FindSelfRow(rows, selfIndex);
    var remaining := |rows| - (if selfRow >= 0 then 1 else 0);
    if remaining == 0 {
      return 0.0;
    }
    var count := CountNeighbours(rows, self.position, self.competitionRadius, selfRow);
    d := DensityOf(count, self.competitionRadius, 400.0, math);
  }

  /** Unlike the split revision, a grass that is the only row does not count itself: its density is 0. */
  lemma SoleRowExcluded(self: Individual, selfIndex: nat)
    ensures !OthersRemain([GrassRow(self.position, selfIndex)], selfIndex)
  {
    assert SelfRow([GrassRow(self.position, selfIndex)], selfIndex) == 0;
  }

  /**
   * The density a grass of this revision sees: from the snapshot's rows
   * without its own when there are rows, and otherwise from the other living
   * members of the live grass list (area per grass 100).
   */
  function SnapshotDensity(self: Individual, selfIndex: nat, snap: Snapshot, lists: Lists, math: MathLib): (d: real)
    ensures math.pi > 0.0 ==> 0.0 <= d <= 1.0
    ensures snap.grassRows == [] && CountOthers(lists.grass, selfIndex) == 0 ==> d == 0.0
    ensures snap.grassRows != [] && !OthersRemain(snap.grassRows, selfIndex) ==> d == 0.0
  {
    var rows := snap.grassRows;
    if rows != [] then
      if OthersRemain(rows, selfIndex)
      then DensityOf(CountNear(rows, self.position, self.competitionRadius, SelfRow(rows, selfIndex)),
                     self.competitionRadius, 400.0, math)
      else 0.0
    else if CountOthers(lists.grass, selfIndex) == 0 then 0.0
    else DensityOf(CountOthersNear(lists.grass, selfIndex, self.position, self.competitionRadius),
                   self.competitionRadius, 100.0, math)
  }

  /**
   * `calculate_nearby_grass_density` of this revision: the row-based
   * computation when the snapshot has rows, and otherwise the fallback over
   * the live grass list.
   */
  method Density(self: Individual, selfIndex: nat, snap: Snapshot, lists: Lists, math: MathLib) returns (d: real)
    ensures d == SnapshotDensity(self, selfIndex, snap, lists, math)
  {
    if |snap.grassRows| > 0 {
      d := OptimizedDensity(self, selfIndex, snap.grassRows, math);
    } else {
      d := FallbackDensity(self, selfIndex, Some(lists.grass), math);
    }
  }

  /**
   * What `Grass::update` of this revision makes of `self`: a living grass
   * gains the growth its local density allows, up to its maximum, is one step
   * older, and dies of old age on reaching its maximum age; nothing else of it
   * changes but the reproduction cooldown's decay.
   */
  predicate GrassUpdated(self: Individual, selfIndex: nat, snap: Snapshot, lists: Lists, math: MathLib, r: Individual)
  {
    if !self.alive then r == self
    else
      && r.energy == Min(self.maxEnergy, self.energy + GrowthRate(SnapshotDensity(BaseUpdate(self), selfIndex, snap, lists, math),
                                                                  self.baseGrowthRate, self.maxCompetitionEffect, math))
      && r.age == self.age + 1
      && (r.alive <==> self.age + 1 < self.maxAge)
      && r.deathReason == (if r.alive then self.deathReason else OldAgeReason)
      && r == BaseUpdate(self).(energy := r.energy, age := r.age, alive := r.alive, deathReason := r.deathReason)
  }

  /**
   * `Grass::update` of this revision: a living grass grows by the adjusted rate
   * up to its maximum and then ages one step, which may kill it of old age.
   */
  method GrassUpdate(self: Individual, selfIndex: nat, snap: Snapshot, lists: Lists, math: MathLib)
    returns (r: Individual)
    ensures GrassUpdated(self, selfIndex, snap, lists, math, r)
    ensures !self.alive ==> r == self
    ensures self.alive ==> r.age == self.age + 1
    ensures r.alive <==> self.alive && self.age + 1 < self.maxAge
    ensures self.alive && !r.alive ==> r.deathReason == OldAgeReason
    ensures self.alive ==> r.energy <= r.maxEnergy
    ensures self.alive && self.baseGrowthRate >= 0.0 ==> r.energy >= Min(self.maxEnergy, self.energy)
    ensures self.alive ==>
              r.energy == Min(self.maxEnergy, self.energy + GrowthRate(SnapshotDensity(BaseUpdate(self), selfIndex, snap, lists, math),
                                                               self.baseGrowthRate, self.maxCompetitionEffect, math))
    ensures self.alive ==>
              r == BaseUpdate(self).(energy := r.energy, age := r.age, alive := r.alive, deathReason := r.deathReason)
  {
    var u := BaseUpdate(self);
    if !u.alive {
      return u;
    }
    var density := Density(u, selfIndex, snap, lists, math);
    var rate := GrowthRate(density, u.baseGrowthRate, u.maxCompetitionEffect, math);
    var grown := u.(energy := Min(u.maxEnergy, u.energy + rate));
    var aged := AgeOneStep(grown);
    r := if aged.age >= aged.maxAge then Die(aged, UnknownReason) else aged;
  }

  /**
   * What follows the move in `Cow::update` of this revision: the energy cost of
   * the step, grazing on the live grass list, one step of aging, and then death
   * by starvation if the energy is no longer positive. Old age, when both
   * apply, is the reason that is recorded.
   */
  function CowAfterMove(moved: Individual, grass: seq<Individual>): (res: (Individual, seq<Individual>))
    ensures |res.1| == |grass|
    ensures forall i :: 0 <= i < |grass| && !grass[i].alive ==> res.1[i] == grass[i]
    ensures res.0.age == moved.age + 1 && res.0.position == moved.position
    ensures moved.alive ==> (res.0.alive <==> res.0.energy > 0.0 && moved.age + 1 < moved.maxAge)
    ensures moved.alive && moved.age + 1 >= moved.maxAge ==> res.0.deathReason == OldAgeReason
    ensures moved.alive && moved.age + 1 < moved.maxAge && !res.0.alive ==> res.0.deathReason == StarvationReason
  {
    var hungry := moved.(energy := moved.energy - moved.energyConsumption as real);
    var meal := Cows.Graze(hungry, grass);
    var aged := AgeOneStep(meal.eater);
    (if aged.energy <= 0.0 then DieFromStarvation(aged) else aged, meal.prey)
  }

  /**
   * What `Cow::update` of this revision makes of `cow` and the grass list: a
   * dead cow changes nothing; a living one takes the base update, moves as
   * `intelligent_move` directs among the snapshot's food lists, and then
   * `CowAfterMove` applies.
   */
  ghost predicate CowUpdated(cow: Individual, snap: Snapshot, lists: Lists, angle: real, math: MathLib,
                             r: Individual, grass': seq<Individual>)
  {
    if !cow.alive then r == cow && grass' == lists.grass
    else exists moved: Individual ::
      IntelligentlyMoved(BaseUpdate(cow), SnapshotFoodLists(lists, BaseUpdate(cow).foodTypes),
                         snap.worldWidth, snap.worldHeight, angle, math, moved)
      && (r, grass') == CowAfterMove(moved, lists.grass)
  }

  /** A cow's update has one outcome. */
  lemma CowUpdatedIsUnique(cow: Individual, snap: Snapshot, lists: Lists, angle: real, math: MathLib,
                           r1: Individual, g1: seq<Individual>, r2: Individual, g2: seq<Individual>)
    requires CowUpdated(cow, snap, lists, angle, math, r1, g1) && CowUpdated(cow, snap, lists, angle, math, r2, g2)
    ensures r1 == r2 && g1 == g2
  {
    if cow.alive {
      var u := BaseUpdate(cow);
      var food := SnapshotFoodLists(lists, u.foodTypes);
      var m1 :| IntelligentlyMoved(u, food, snap.worldWidth, snap.worldHeight, angle, math, m1) && (r1, g1) == CowAfterMove(m1, lists.grass);
      var m2 :| IntelligentlyMoved(u, food, snap.worldWidth, snap.worldHeight, angle, math, m2) && (r2, g2) == CowAfterMove(m2, lists.grass);
      IntelligentlyMovedIsUnique(u, food, snap.worldWidth, snap.worldHeight, angle, math, m1, m2);
    }
  }

  /**
   * `Cow::update` of this revision: the base update, the move toward the
   * nearest grass, and `CowAfterMove`. Returns the cow and the grass list.
   */
  method CowUpdate(cow: Individual, snap: Snapshot, lists: Lists, angle: real, math: MathLib)
    returns (r: Individual, grass': seq<Individual>)
    ensures CowUpdated(cow, snap, lists, angle, math, r, grass')
    ensures |grass'| == |lists.grass|
    ensures forall i :: 0 <= i < |grass'| && !lists.grass[i].alive ==> grass'[i] == lists.grass[i]
    ensures cow.alive ==> r.age == cow.age + 1
    ensures r.alive ==> r.energy > 0.0
    ensures snap.worldWidth >= 0 && snap.worldHeight >= 0 && InWorld(cow.position, snap.worldWidth, snap.worldHeight)
            ==> InWorld(r.position, snap.worldWidth, snap.worldHeight)
  {
    var u := BaseUpdate(cow);
    if !u.alive {
      return u, lists.grass;
    }
    var moved := IntelligentMove(u, SnapshotFoodLists(lists, u.foodTypes), snap.worldWidth, snap.worldHeight, angle, math);
    var hungry := moved.(energy := moved.energy - moved.energyConsumption as real);
    var fed;
    fed, grass' := Cows.EatGrass(hungry, lists.grass);
    var aged := AgeOneStep(fed);
    r := if aged.energy <= 0.0 then DieFromStarvation(aged) else aged;
    assert IntelligentlyMoved(u, SnapshotFoodLists(lists, u.foodTypes), snap.worldWidth, snap.worldHeight, angle, math, moved)
        && (r, grass') == CowAfterMove(moved, lists.grass);
  }

  /**
   * What follows the move in `Tiger::update` of this revision: the energy cost
   * of the step, the hunt among the live cow list, one step of aging, and death
   * by starvation.
   */
  function TigerAfterMove(moved: Individual, cows: seq<Individual>, draw: nat -> real)
    : (res: (Individual, seq<Individual>))
    ensures |res.1| == |cows|
    ensures forall i :: 0 <= i < |cows| && !cows[i].alive ==> res.1[i] == cows[i]
    ensures res.0.age == moved.age + 1 && res.0.position == moved.position
    ensures moved.alive ==> (res.0.alive <==> res.0.energy > 0.0 && moved.age + 1 < moved.maxAge)
    ensures moved.alive && moved.age + 1 >= moved.maxAge ==> res.0.deathReason == OldAgeReason
    ensures moved.alive && moved.age + 1 < moved.maxAge && !res.0.alive ==> res.0.deathReason == StarvationReason
  {
    var hungry := moved.(energy := moved.energy - moved.energyConsumption as real);
    var meal := Tigers.Hunt(hungry, cows, draw);
    var aged := AgeOneStep(meal.eater);
    (if aged.energy <= 0.0 then DieFromStarvation(aged) else aged, meal.prey)
  }

  /**
   * What `Tiger::update` of this revision makes of `tiger` and the cow list:
   * the success rate is recomputed even for a dead tiger, which otherwise
   * changes nothing; a living one takes the base update, moves as
   * `intelligent_move` directs, and then `TigerAfterMove` applies.
   */
  ghost predicate TigerUpdated(tiger: Individual, snap: Snapshot, lists: Lists, angle: real, draw: nat -> real, math: MathLib,
                               r: Individual, cows': seq<Individual>)
  {
    if !tiger.alive then r == Tigers.Rated(tiger) && cows' == lists.cow
    else exists moved: Individual ::
      IntelligentlyMoved(Tigers.Rated(BaseUpdate(tiger)), SnapshotFoodLists(lists, tiger.foodTypes),
                         snap.worldWidth, snap.worldHeight, angle, math, moved)
      && (r, cows') == TigerAfterMove(moved, lists.cow, draw)
  }

  /** A tiger's update has one outcome. */
  lemma TigerUpdatedIsUnique(tiger: Individual, snap: Snapshot, lists: Lists, angle: real, draw: nat -> real, math: MathLib,
                             r1: Individual, c1: seq<Individual>, r2: Individual, c2: seq<Individual>)
    requires TigerUpdated(tiger, snap, lists, angle, draw, math, r1, c1) && TigerUpdated(tiger, snap, lists, angle, draw, math, r2, c2)
    ensures r1 == r2 && c1 == c2
  {
    if tiger.alive {
      var u := Tigers.Rated(BaseUpdate(tiger));
      var food := SnapshotFoodLists(lists, tiger.foodTypes);
      var m1 :| IntelligentlyMoved(u, food, snap.worldWidth, snap.worldHeight, angle, math, m1) && (r1, c1) == TigerAfterMove(m1, lists.cow, draw);
      var m2 :| IntelligentlyMoved(u, food, snap.worldWidth, snap.worldHeight, angle, math, m2) && (r2, c2) == TigerAfterMove(m2, lists.cow, draw);
      IntelligentlyMovedIsUnique(u, food, snap.worldWidth, snap.worldHeight, angle, math, m1, m2);
    }
  }

  /**
   * `Tiger::update` of this revision: the base update, the success rate (set
   * on a dead tiger too), the move toward the nearest cow, and
   * `TigerAfterMove`. Returns the tiger and the cow list.
   */
  method TigerUpdate(tiger: Individual, snap: Snapshot, lists: Lists, angle: real, draw: nat -> real, math: MathLib)
    returns (r: Individual, cows': seq<Individual>)
    ensures TigerUpdated(tiger, snap, lists, angle, draw, math, r, cows')
    ensures |cows'| == |lists.cow|
    ensures forall i :: 0 <= i < |cows'| && !lists.cow[i].alive ==> cows'[i] == lists.cow[i]
    ensures tiger.alive ==> r.age == tiger.age + 1
    ensures r.alive ==> r.energy > 0.0
    ensures snap.worldWidth >= 0 && snap.worldHeight >= 0 && InWorld(tiger.position, snap.worldWidth, snap.worldHeight)
            ==> InWorld(r.position, snap.worldWidth, snap.worldHeight)
  {
    var u := Tigers.Rated(BaseUpdate(tiger));
    if !u.alive {
      return u, lists.cow;
    }
    var moved := IntelligentMove(u, SnapshotFoodLists(lists, u.foodTypes), snap.worldWidth, snap.worldHeight, angle, math);
    var hungry := moved.(energy := moved.energy - moved.energyConsumption as real);
    var fed;
    fed, cows' := Tigers.HuntCows(hungry, lists.cow, draw);
    var aged := AgeOneStep(fed);
    r := if aged.energy <= 0.0 then DieFromStarvation(aged) else aged;
    assert IntelligentlyMoved(u, SnapshotFoodLists(lists, tiger.foodTypes), snap.worldWidth, snap.worldHeight, angle, math, moved)
        && (r, cows') == TigerAfterMove(moved, lists.cow, draw);
  }
}
