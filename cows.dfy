/**
 * The `Cow` class (the primary consumer): its constructor, grazing on the
 * first living grass within eating range, the split revision's update, and
 * reproduction close to the parent.
 */
module Cows {
  import opened Geometry
  import opened Wrappers
  import opened Individuals
  import opened Animals

  const CowName: string := "Cow"

  /**
   * The `Cow` constructor. The arguments reach `Animal` positionally: starting
   * energy 400 (maximum 1600), lifespan 4000, cost 400, speed 3, consumption 2,
   * hunting range 5, success rate 1, detection range 800, food "grass", no
   * hunting cooldown; and an eating range of 5.
   */
  function NewCow(pos: Position): (r: Individual)
    ensures r.kind == CowKind && r.position == pos && r.alive && r.age == 0 && r.deathReason == ""
    ensures r.energy == 400.0 && r.maxEnergy == 1600.0 && r.maxAge == 4000 && r.reproductionEnergyCost == 400.0
    ensures r.reproductionCooldown == 0
    ensures r.movementSpeed == 3.0 && r.energyConsumption == 2 && r.huntingRange == 5.0
    ensures r.huntingSuccessRate == 1.0 && r.detectionRange == 800.0 && r.foodTypes == ["grass"]
    ensures r.huntingCooldown == 0 && r.huntingCooldownDuration == 0 && r.eatingRange == 5.0
  {
    NewAnimal(pos, 400.0, 4000, 400.0, 3.0, 2, 5.0, 1.0, 800.0, ["grass"], 0).(kind := CowKind, eatingRange := 5.0)
  }

  /**
   * One grazing: the first living grass within eating range, if there is one,
   * is eaten and dies of predation by "Cow"; nothing else changes.
   */
  function Graze(cow: Individual, grass: seq<Individual>): (m: Meal)
    ensures |m.prey| == |grass|
    ensures forall i :: 0 <= i < |grass| && !grass[i].alive ==> m.prey[i] == grass[i]
    ensures (forall i :: 0 <= i < |grass| ==> !InReach(grass[i], cow.position, cow.eatingRange)) ==> m == Meal(cow, grass)
    ensures forall k :: 0 <= k < |grass| && InReach(grass[k], cow.position, cow.eatingRange)
                        && (forall j :: 0 <= j < k ==> !InReach(grass[j], cow.position, cow.eatingRange)) ==>
              m == Meal(Feed(cow, grass[k]), KillAt(grass, k, CowName))
  {
    var first := FirstInRange(grass, cow.position, cow.eatingRange);
    if first.None? then Meal(cow, grass)
    else Meal(Feed(cow, grass[first.value]), KillAt(grass, first.value, CowName))
  }

  /**
   * A cow that finds grass in reach eats exactly one: one fewer grass is alive,
   * the eaten one records "Predation by Cow", and the cow's energy stays within
   * its maximum. Otherwise nothing changes.
   */
  lemma GrazeEatsOne(cow: Individual, grass: seq<Individual>)
    ensures var m := Graze(cow, grass);
            m.eater == cow.(energy := m.eater.energy)
            && (if exists i :: 0 <= i < |grass| && InReach(grass[i], cow.position, cow.eatingRange)
                then |AliveOnly(m.prey)| == |AliveOnly(grass)| - 1 && m.eater.energy <= cow.maxEnergy
                     && (exists k :: 0 <= k < |grass| && grass[k].alive && m.prey[k].deathReason == PredationReason(CowName)
                                     && m.prey == grass[k := m.prey[k]])
                else m == Meal(cow, grass))
  {
    var first := FirstInRange(grass, cow.position, cow.eatingRange);
    if first.Some? {
      var k := first.value;
      var m := Graze(cow, grass);
      assert m.prey == grass[k := m.prey[k]];
    }
  }

  /** `Cow::_eat_grass`: the scan over the whole grass list that stops at the first meal. */
  method EatGrass(cow: Individual, grass: seq<Individual>) returns (r: Individual, grass': seq<Individual>)
    ensures Meal(r, grass') == Graze(cow, grass)
  {
    var i := 0;
    while i < |grass|
      invariant 0 <= i <= |grass|
      invariant forall j :: 0 <= j < i ==> !InReach(grass[j], cow.position, cow.eatingRange)
    {
      if grass[i].alive && Within(cow.position, grass[i].position, cow.eatingRange) {
        return Feed(cow, grass[i]), KillAt(grass, i, CowName);
      }
      i := i + 1;
    }
    return cow, grass;
  }

  /** The first of the listed members that is alive, as the split revision's scan finds it. */
  function FirstAliveOf(grass: seq<Individual>, inRange: seq<nat>): (r: Option<nat>)
    requires forall j :: 0 <= j < |inRange| ==> inRange[j] < |grass|
    ensures r.None? ==> forall j :: 0 <= j < |inRange| ==> !grass[inRange[j]].alive
    ensures r.Some? ==> exists j :: 0 <= j < |inRange| && inRange[j] == r.value && grass[r.value].alive
                                   && forall i :: 0 <= i < j ==> !grass[inRange[i]].alive
    decreases |inRange|
  {
    if inRange == [] then None
    else if grass[inRange[0]].alive then Some(inRange[0])
    else
      var rest := FirstAliveOf(grass, inRange[1..]);
      if rest.Some? then
        var j :| 0 <= j < |inRange[1..]| && inRange[1..][j] == rest.value && grass[rest.value].alive
                 && forall i :: 0 <= i < j ==> !grass[inRange[1..][i]].alive;
        assert inRange[j + 1] == rest.value;
        rest
      else rest
  }

  /** Over the members the range query returns, which are all alive, the first alive is the first in reach. */
  lemma FirstAliveOfRange(grass: seq<Individual>, center: Position, radius: real)
    ensures FirstAliveOf(grass, InRangeIndices(grass, center, radius)) == FirstInRange(grass, center, radius)
  {
  }

  /**
   * The split revision's grazing loop: over the members the range query
   * returned, eating the first that is still alive.
   */
  method EatInRange(cow: Individual, grass: seq<Individual>, inRange: seq<nat>) returns (r: Individual, grass': seq<Individual>)
    requires forall j :: 0 <= j < |inRange| ==> inRange[j] < |grass|
    ensures FirstAliveOf(grass, inRange).None? ==> r == cow && grass' == grass
    ensures FirstAliveOf(grass, inRange).Some? ==>
              var k := FirstAliveOf(grass, inRange).value;
              r == Feed(cow, grass[k]) && grass' == KillAt(grass, k, CowName)
  {
    var i := 0;
    while i < |inRange|
      invariant 0 <= i <= |inRange|
      invariant forall j :: 0 <= j < i ==> !grass[inRange[j]].alive
    {
      var k := inRange[i];
      if grass[k].alive {
        return Feed(cow, grass[k]), KillAt(grass, k, CowName);
      }
      i := i + 1;
    }
    return cow, grass;
  }

  /**
   * What follows the move in the split revision's `Cow::update`: the energy
   * cost of the step, grazing on the world's grass, and death by starvation
   * when the energy is no longer positive.
   */
  function AfterMove(moved: Individual, world: map<string, seq<Individual>>): (res: (Individual, map<string, seq<Individual>>))
    ensures res.1.Keys == world.Keys
    ensures forall n :: n in world && n != "grass" ==> res.1[n] == world[n]
    ensures "grass" in world ==> |res.1["grass"]| == |world["grass"]|
    ensures moved.alive ==> (res.0.alive <==> res.0.energy > 0.0)
    ensures moved.alive && !res.0.alive ==> res.0.deathReason == StarvationReason
    ensures res.0.position == moved.position && res.0.age == moved.age
  {
    var hungry := moved.(energy := moved.energy - moved.energyConsumption as real);
    var meal := if "grass" in world then Graze(hungry, world["grass"]) else Meal(hungry, []);
    var world' := if "grass" in world then world["grass" := meal.prey] else world;
    (if meal.eater.energy <= 0.0 then DieFromStarvation(meal.eater) else meal.eater, world')
  }

  /**
   * `Cow::update` of the split revision: the base update (which may kill of old
   * age, and then the cow does nothing more); the move toward the nearest grass;
   * and `AfterMove`. The grass list is the live one, so a kill is visible to
   * every later reader.
   */
  method Update(cow: Individual, world: map<string, seq<Individual>>, w: int, h: int, angle: real, math: MathLib)
    returns (r: Individual, world': map<string, seq<Individual>>)
    ensures !Individuals.Update(cow).alive ==> r == Individuals.Update(cow) && world' == world
    ensures var u := Individuals.Update(cow);
            u.alive ==> exists moved: Individual :: IntelligentlyMoved(u, FoodLists(world, u.foodTypes), w, h, angle, math, moved)
                                                    && (r, world') == AfterMove(moved, world)
    ensures world'.Keys == world.Keys
    ensures forall n :: n in world && n != "grass" ==> world'[n] == world[n]
    ensures cow.alive && !r.alive && Individuals.Update(cow).alive ==> r.deathReason == StarvationReason
    ensures r.alive ==> r.energy > 0.0
    ensures w >= 0 && h >= 0 && InWorld(cow.position, w, h) ==> InWorld(r.position, w, h)
  {
    var u := Individuals.Update(cow);
    if !u.alive {
      return u, world;
    }
    var moved := IntelligentMove(u, FoodLists(world, u.foodTypes), w, h, angle, math);
    var hungry := moved.(energy := moved.energy - moved.energyConsumption as real);
    var fed := hungry;
    world' := world;
    if "grass" in world {
      var grass := world["grass"];
      var inRange := SpeciesInRange(world, "grass", hungry.position, hungry.eatingRange);
      var grass';
      fed, grass' := EatInRange(hungry, grass, inRange);
      FirstAliveOfRange(grass, hungry.position, hungry.eatingRange);
      world' := world["grass" := grass'];
    }
    r := if fed.energy <= 0.0 then DieFromStarvation(fed) else fed;
    assert IntelligentlyMoved(u, FoodLists(world, u.foodTypes), w, h, angle, math, moved) && (r, world') == AfterMove(moved, world);
  }

  /** `Cow::can_reproduce`: the base test, and older than 20. */
  predicate CanReproduce(ind: Individual): (b: bool)
    ensures b ==> Individuals.CanReproduce(ind)
    ensures ind.age <= 20 ==> !b
  {
    Individuals.CanReproduce(ind) && ind.age > 20
  }

  /** Where a calf lands: up to 10 away on each axis, clamped into the world. */
  function Target(ind: Individual, ux: real, uy: real, w: int, h: int): Position
  {
    ClampToWorld(ind.position.x + Uniform(ux, -10.0, 10.0), ind.position.y + Uniform(uy, -10.0, 10.0), w, h)
  }

  /**
   * `Cow::reproduce`: an eligible cow pays its cost, waits 200 steps, and has a
   * calf near it; an ineligible one is left as it was.
   */
  function Reproduce(ind: Individual, ux: real, uy: real, w: int, h: int): (b: Birth)
    ensures b.offspring.Some? <==> CanReproduce(ind)
    ensures b.offspring.None? ==> b.parent == ind
    ensures b.offspring.Some? ==>
              b.parent == ind.(energy := ind.energy - ind.reproductionEnergyCost, reproductionCooldown := 200)
    ensures b.offspring.Some? ==> b.parent.energy >= ind.reproductionEnergyCost
    ensures b.offspring.Some? ==> b.offspring.value == NewCow(Target(ind, ux, uy, w, h))
    ensures b.offspring.Some? && w >= 0 && h >= 0 ==> InWorld(b.offspring.value.position, w, h)
  {
    if !CanReproduce(ind) then Birth(ind, None)
    else
      Birth(ind.(energy := ind.energy - ind.reproductionEnergyCost, reproductionCooldown := 200),
            Some(NewCow(Target(ind, ux, uy, w, h))))
  }

  /** A cow that has just calved cannot calve again at once, and a newborn calf cannot either. */
  lemma ReproductionStartsCooldown(ind: Individual, ux: real, uy: real, w: int, h: int)
    requires Reproduce(ind, ux, uy, w, h).offspring.Some?
    ensures !CanReproduce(Reproduce(ind, ux, uy, w, h).parent)
    ensures !CanReproduce(Reproduce(ind, ux, uy, w, h).offspring.value)
  {
  }
}
