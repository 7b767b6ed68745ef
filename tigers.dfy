/**
 * The `Tiger` class (the secondary consumer): its constructor, the hunting
 * success rate that rises when it is hungry and young, hunting with one
 * random draw per cow in range, the split revision's update, and
 * reproduction.
 */
module Tigers {
  import opened Geometry
  import opened Wrappers
  import opened Individuals
  import opened Animals

  const TigerName: string := "Tiger"

  /**
   * The `Tiger` constructor: starting energy 4000 (maximum 16000), lifespan
   * 8000, cost 4000, speed 4, consumption 20, hunting range 6, success rate
   * 0.2, detection range 1000, food "cow", hunting cooldown 4.
   */
  function NewTiger(pos: Position): (r: Individual)
    ensures r.kind == TigerKind && r.position == pos && r.alive && r.age == 0 && r.deathReason == ""
    ensures r.energy == 4000.0 && r.maxEnergy == 16000.0 && r.maxAge == 8000 && r.reproductionEnergyCost == 4000.0
    ensures r.reproductionCooldown == 0
    ensures r.movementSpeed == 4.0 && r.energyConsumption == 20 && r.huntingRange == 6.0
    ensures r.huntingSuccessRate == 0.2 && r.detectionRange == 1000.0 && r.foodTypes == ["cow"]
    ensures r.huntingCooldown == 0 && r.huntingCooldownDuration == 4
  {
    NewAnimal(pos, 4000.0, 8000, 4000.0, 4.0, 20, 6.0, 0.2, 1000.0, ["cow"], 4).(kind := TigerKind)
  }

  /**
   * The success rate `Tiger::update` sets: 0.2 normally, and up to 0.8 for a
   * young tiger whose energy is at most a third of its reproduction cost. A
   * lifespan of 0 would divide by zero in the engine; the model answers 0.2.
   */
  function HuntingSuccessRate(ind: Individual): (r: real)
    ensures ind.energy > ind.reproductionEnergyCost / 3.0 ==> r == 0.2
    ensures ind.maxAge > 0 && 0 <= ind.age <= ind.maxAge ==> 0.2 <= r <= 0.8
    ensures ind.energy <= ind.reproductionEnergyCost / 3.0 && ind.age == 0 && ind.maxAge > 0 ==> r == 0.8
  {
    if ind.energy <= ind.reproductionEnergyCost / 3.0 && ind.maxAge != 0 then
      AgeFractionBounds(ind.age, ind.maxAge);
      0.2 + 0.6 * (1.0 - ind.age as real / ind.maxAge as real)
    else 0.2
  }

  lemma AgeFractionBounds(age: int, maxAge: int)
    requires maxAge != 0
    ensures maxAge > 0 && 0 <= age <= maxAge ==> 0.0 <= age as real / maxAge as real <= 1.0
  {
    if maxAge > 0 && 0 <= age <= maxAge {
      var q := age as real / maxAge as real;
      assert q * maxAge as real == age as real;
    }
  }

  /** The rate as set at the start of `Tiger::update`, on the individual. */
  function Rated(ind: Individual): (r: Individual)
    ensures r == ind.(huntingSuccessRate := HuntingSuccessRate(ind))
  {
    ind.(huntingSuccessRate := HuntingSuccessRate(ind))
  }

  /** The first of the draws `draw(0)`, ..., `draw(n-1)` that falls below `rate`. */
  function FirstSuccess(n: nat, draw: nat -> real, rate: real): (r: Option<nat>)
    ensures r.None? ==> forall m :: 0 <= m < n ==> draw(m) >= rate
    ensures r.Some? ==> r.value < n && draw(r.value) < rate && forall m :: 0 <= m < r.value ==> draw(m) >= rate
  {
    if n == 0 then None
    else
      var p := FirstSuccess(n - 1, draw, rate);
      if p.Some? then p
      else if draw(n - 1) < rate then Some(n - 1)
      else None
  }

  /** The prey `Hunt` picks, as an index into the cow list. */
  function Prey(tiger: Individual, cows: seq<Individual>, draw: nat -> real): (r: Option<nat>)
    ensures r.Some? ==> r.value < |cows| && InReach(cows[r.value], tiger.position, tiger.huntingRange)
  {
    var c := InRangeIndices(cows, tiger.position, tiger.huntingRange);
    var s := FirstSuccess(|c|, draw, tiger.huntingSuccessRate);
    if s.None? then None else Some(c[s.value])
  }

  /**
   * One hunt by `tiger`: the cows in range are tried in list order, the i-th of
   * them with draw `draw(i)`; the first whose draw falls below the success rate
   * is eaten and dies of predation by "Tiger", and the tiger's hunting cooldown
   * restarts. When every draw fails, nothing changes.
   */
  function Hunt(tiger: Individual, cows: seq<Individual>, draw: nat -> real): (m: Meal)
    ensures |m.prey| == |cows|
    ensures forall i :: 0 <= i < |cows| && !cows[i].alive ==> m.prey[i] == cows[i]
    ensures m.eater == tiger.(energy := m.eater.energy, huntingCooldown := m.eater.huntingCooldown)
    ensures m.eater.huntingCooldown == tiger.huntingCooldown || m.eater.huntingCooldown == tiger.huntingCooldownDuration
  {
    var p := Prey(tiger, cows, draw);
    if p.None? then Meal(tiger, cows)
    else Meal(StartHuntingCooldown(Feed(tiger, cows[p.value])), KillAt(cows, p.value, TigerName))
  }

  /**
   * A hunt kills at most one cow, and only a living one within hunting range;
   * after a kill one fewer cow is alive, the tiger's energy is within its
   * maximum and its cooldown is at its full duration.
   */
  lemma HuntKillsAtMostOne(tiger: Individual, cows: seq<Individual>, draw: nat -> real)
    ensures var m := Hunt(tiger, cows, draw);
            m == Meal(tiger, cows)
            || ((exists k :: 0 <= k < |cows| && InReach(cows[k], tiger.position, tiger.huntingRange)
                             && m.prey == KillAt(cows, k, TigerName))
                && |AliveOnly(m.prey)| == |AliveOnly(cows)| - 1
                && m.eater.energy <= m.eater.maxEnergy
                && m.eater.huntingCooldown == tiger.huntingCooldownDuration)
  {
  }

  /** No cow in range, or no draw below the rate, means no kill. */
  lemma NoPreyNoKill(tiger: Individual, cows: seq<Individual>, draw: nat -> real)
    requires (forall i :: 0 <= i < |cows| ==> !InReach(cows[i], tiger.position, tiger.huntingRange))
             || (forall m: nat :: draw(m) >= tiger.huntingSuccessRate)
    ensures Hunt(tiger, cows, draw) == Meal(tiger, cows)
  {
    var c := InRangeIndices(cows, tiger.position, tiger.huntingRange);
    if |c| > 0 {
      assert InReach(cows[c[0]], tiger.position, tiger.huntingRange);
    }
  }

  /** A first draw below the rate makes the first cow in range the prey. */
  lemma LuckyFirstDraw(tiger: Individual, cows: seq<Individual>, draw: nat -> real)
    requires draw(0) < tiger.huntingSuccessRate
    requires FirstInRange(cows, tiger.position, tiger.huntingRange).Some?
    ensures var k := FirstInRange(cows, tiger.position, tiger.huntingRange).value;
            Hunt(tiger, cows, draw).prey == KillAt(cows, k, TigerName)
  {
  }

  /** Cow `i`, the `n`-th in range, is the prey when its draw is the first to succeed. */
  lemma PreyIsAt(tiger: Individual, cows: seq<Individual>, draw: nat -> real, i: nat, n: nat)
    requires i < |cows| && InReach(cows[i], tiger.position, tiger.huntingRange)
    requires n == |InRangeIndices(cows[..i], tiger.position, tiger.huntingRange)|
    requires draw(n) < tiger.huntingSuccessRate
    requires forall m :: 0 <= m < n ==> draw(m) >= tiger.huntingSuccessRate
    ensures Prey(tiger, cows, draw) == Some(i)
  {
    NthInRange(cows, i, n, tiger.position, tiger.huntingRange);
    var c := InRangeIndices(cows, tiger.position, tiger.huntingRange);
    FirstSuccessAt(|c|, draw, tiger.huntingSuccessRate, n);
  }

  /** The draw sequence's first success is at `n` when draw `n` succeeds and all before it fail. */
  lemma FirstSuccessAt(len: nat, draw: nat -> real, rate: real, n: nat)
    requires n < len && draw(n) < rate
    requires forall m :: 0 <= m < n ==> draw(m) >= rate
    ensures FirstSuccess(len, draw, rate) == Some(n)
  {
  }

  /** A scan that reaches the end of the list with every draw failed changes nothing. */
  lemma HuntFailsOver(tiger: Individual, cows: seq<Individual>, draw: nat -> real, n: nat)
    requires n == |InRangeIndices(cows, tiger.position, tiger.huntingRange)|
    requires forall m :: 0 <= m < n ==> draw(m) >= tiger.huntingSuccessRate
    ensures Hunt(tiger, cows, draw) == Meal(tiger, cows)
  {
  }

  /**
   * `Tiger::_hunt_cows`: the scan over the whole cow list; each living cow in
   * range costs one draw, and the first successful draw ends the hunt.
   */
  method HuntCows(tiger: Individual, cows: seq<Individual>, draw: nat -> real) returns (r: Individual, cows': seq<Individual>)
    ensures Meal(r, cows') == Hunt(tiger, cows, draw)
  {
    var i := 0;
    var n := 0;
    while i < |cows|
      invariant 0 <= i <= |cows|
      invariant n == |InRangeIndices(cows[..i], tiger.position, tiger.huntingRange)|
      invariant forall m :: 0 <= m < n ==> draw(m) >= tiger.huntingSuccessRate
    {
      InRangeStep(cows, i, tiger.position, tiger.huntingRange);
      if cows[i].alive && Within(tiger.position, cows[i].position, tiger.huntingRange) {
        if draw(n) < tiger.huntingSuccessRate {
          PreyIsAt(tiger, cows, draw, i, n);
          return StartHuntingCooldown(Feed(tiger, cows[i])), KillAt(cows, i, TigerName);
        }
        n := n + 1;
      }
      i := i + 1;
    }
    assert cows[..i] == cows;
    HuntFailsOver(tiger, cows, draw, n);
    return tiger, cows;
  }

  /** The first listed member that is alive and whose draw succeeds, and that member's draw number. */
  function FirstAliveSuccess(cows: seq<Individual>, inRange: seq<nat>, draw: nat -> real, rate: real, n: nat): (r: Option<nat>)
    requires forall j :: 0 <= j < |inRange| ==> inRange[j] < |cows|
    ensures r.Some? ==> r.value < |cows| && cows[r.value].alive
    decreases |inRange|
  {
    if inRange == [] then None
    else if cows[inRange[0]].alive then
      if draw(n) < rate then Some(inRange[0]) else FirstAliveSuccess(cows, inRange[1..], draw, rate, n + 1)
    else FirstAliveSuccess(cows, inRange[1..], draw, rate, n)
  }

  /** Over the members the range query returns, the split revision's scan picks the same prey as `Hunt`. */
  lemma {:induction false} FirstAliveSuccessOfRange(cows: seq<Individual>, inRange: seq<nat>, c: seq<nat>,
                                                    draw: nat -> real, rate: real, n: nat)
    requires forall j :: 0 <= j < |c| ==> c[j] < |cows| && cows[c[j]].alive
    requires n <= |c| && inRange == c[n..]
    requires forall m :: 0 <= m < n ==> draw(m) >= rate
    ensures var s := FirstSuccess(|c|, draw, rate);
            FirstAliveSuccess(cows, inRange, draw, rate, n) == (if s.None? then None else Some(c[s.value]))
    decreases |inRange|
  {
    var s := FirstSuccess(|c|, draw, rate);
    if inRange == [] {
    } else if draw(n) < rate {
      assert s == Some(n);
    } else {
      assert inRange[1..] == c[n + 1..];
      FirstAliveSuccessOfRange(cows, inRange[1..], c, draw, rate, n + 1);
    }
  }

  /** `Hunt` is the split revision's scan over the range query's result. */
  lemma HuntByScan(tiger: Individual, cows: seq<Individual>, draw: nat -> real)
    ensures var s := FirstAliveSuccess(cows, InRangeIndices(cows, tiger.position, tiger.huntingRange), draw, tiger.huntingSuccessRate, 0);
            Hunt(tiger, cows, draw)
            == if s.None? then Meal(tiger, cows)
               else Meal(StartHuntingCooldown(Feed(tiger, cows[s.value])), KillAt(cows, s.value, TigerName))
  {
    var c := InRangeIndices(cows, tiger.position, tiger.huntingRange);
    assert c[0..] == c;
    FirstAliveSuccessOfRange(cows, c, c, draw, tiger.huntingSuccessRate, 0);
  }

  /**
   * The split revision's hunting loop, over the cows the range query returned:
   * each living one costs one draw, and the first success ends it.
   */
  method HuntInRange(tiger: Individual, cows: seq<Individual>, inRange: seq<nat>, draw: nat -> real)
    returns (r: Individual, cows': seq<Individual>)
    requires forall j :: 0 <= j < |inRange| ==> inRange[j] < |cows|
    ensures var s := FirstAliveSuccess(cows, inRange, draw, tiger.huntingSuccessRate, 0);
            if s.None? then r == tiger && cows' == cows
            else r == StartHuntingCooldown(Feed(tiger, cows[s.value])) && cows' == KillAt(cows, s.value, TigerName)
  {
    var i := 0;
    var n := 0;
    while i < |inRange|
      invariant 0 <= i <= |inRange|
      invariant FirstAliveSuccess(cows, inRange, draw, tiger.huntingSuccessRate, 0)
                == FirstAliveSuccess(cows, inRange[i..], draw, tiger.huntingSuccessRate, n)
    {
      assert inRange[i..][1..] == inRange[i + 1..];
      var k := inRange[i];
      if cows[k].alive {
        if draw(n) < tiger.huntingSuccessRate {
          return StartHuntingCooldown(Feed(tiger, cows[k])), KillAt(cows, k, TigerName);
        }
        n := n + 1;
      }
      i := i + 1;
    }
    return tiger, cows;
  }

  /**
   * What follows the move in the split revision's `Tiger::update`: the energy
   * cost of the step, the hunt among the world's cows, and death by starvation
   * when the energy is no longer positive.
   */
  function AfterMove(moved: Individual, world: map<string, seq<Individual>>, draw: nat -> real)
    : (res: (Individual, map<string, seq<Individual>>))
    ensures res.1.Keys == world.Keys
    ensures forall n :: n in world && n != "cow" ==> res.1[n] == world[n]
    ensures "cow" in world ==> |res.1["cow"]| == |world["cow"]|
    ensures moved.alive ==> (res.0.alive <==> res.0.energy > 0.0)
    ensures moved.alive && !res.0.alive ==> res.0.deathReason == StarvationReason
    ensures res.0.position == moved.position && res.0.age == moved.age
  {
    var hungry := moved.(energy := moved.energy - moved.energyConsumption as real);
    var meal := if "cow" in world then Hunt(hungry, world["cow"], draw) else Meal(hungry, []);
    var world' := if "cow" in world then world["cow" := meal.prey] else world;
    (if meal.eater.energy <= 0.0 then DieFromStarvation(meal.eater) else meal.eater, world')
  }

  /**
   * `Tiger::update` of the split revision: the base update, then the success
   * rate (set even on a tiger that has just died), then for a living tiger the
   * move and `AfterMove`. The hunt happens even while the hunting cooldown
   * keeps the tiger still.
   */
  method Update(tiger: Individual, world: map<string, seq<Individual>>, w: int, h: int, angle: real,
                draw: nat -> real, math: MathLib)
    returns (r: Individual, world': map<string, seq<Individual>>)
    ensures var u := Rated(Individuals.Update(tiger));
            !u.alive ==> r == u && world' == world
    ensures var u := Rated(Individuals.Update(tiger));
            u.alive ==> exists moved: Individual :: IntelligentlyMoved(u, FoodLists(world, u.foodTypes), w, h, angle, math, moved)
                                                    && (r, world') == AfterMove(moved, world, draw)
    ensures world'.Keys == world.Keys
    ensures forall n :: n in world && n != "cow" ==> world'[n] == world[n]
    ensures "cow" !in world ==> world' == world
    ensures r.alive ==> r.energy > 0.0
    ensures w >= 0 && h >= 0 && InWorld(tiger.position, w, h) ==> InWorld(r.position, w, h)
  {
    var u := Rated(Individuals.Update(tiger));
    if !u.alive {
      return u, world;
    }
    var moved := IntelligentMove(u, FoodLists(world, u.foodTypes), w, h, angle, math);
    r, world' := HuntAndStarve(moved, world, draw);
    assert IntelligentlyMoved(u, FoodLists(world, u.foodTypes), w, h, angle, math, moved);
  }

  /** The hunt of one tiger over the cow list, by the range query and the scan. */
  method HuntCowList(hungry: Individual, cows: seq<Individual>, draw: nat -> real)
    returns (fed: Individual, cows': seq<Individual>)
    ensures Meal(fed, cows') == Hunt(hungry, cows, draw)
  {
    var inRange := InRangeIndices(cows, hungry.position, hungry.huntingRange);
    fed, cows' := HuntInRange(hungry, cows, inRange, draw);
    HuntByScan(hungry, cows, draw);
  }

  /** The part of `Tiger::update` after the move: energy spent, the hunt, the starvation check. */
  method HuntAndStarve(moved: Individual, world: map<string, seq<Individual>>, draw: nat -> real)
    returns (r: Individual, world': map<string, seq<Individual>>)
    ensures (r, world') == AfterMove(moved, world, draw)
  {
    var hungry := moved.(energy := moved.energy - moved.energyConsumption as real);
    var fed := hungry;
    world' := world;
    if "cow" in world {
      var cows';
      fed, cows' := HuntCowList(hungry, world["cow"], draw);
      world' := world["cow" := cows'];
    }
    r := if fed.energy <= 0.0 then DieFromStarvation(fed) else fed;
  }

  /** `Tiger::can_reproduce`: the base test, and older than 30. */
  predicate CanReproduce(ind: Individual): (b: bool)
    ensures b ==> Individuals.CanReproduce(ind)
    ensures ind.age <= 30 ==> !b
  {
    Individuals.CanReproduce(ind) && ind.age > 30
  }

  /** Where a cub lands: up to 40 away on each axis, clamped into the world. */
  function Target(ind: Individual, ux: real, uy: real, w: int, h: int): Position
  {
    ClampToWorld(ind.position.x + Uniform(ux, -40.0, 40.0), ind.position.y + Uniform(uy, -40.0, 40.0), w, h)
  }

  /**
   * `Tiger::reproduce`: an eligible tiger pays its cost, waits 800 steps, and
   * has a cub near it; an ineligible one is left as it was.
   */
  function Reproduce(ind: Individual, ux: real, uy: real, w: int, h: int): (b: Birth)
    ensures b.offspring.Some? <==> CanReproduce(ind)
    ensures b.offspring.None? ==> b.parent == ind
    ensures b.offspring.Some? ==>
              b.parent == ind.(energy := ind.energy - ind.reproductionEnergyCost, reproductionCooldown := 800)
    ensures b.offspring.Some? ==> b.parent.energy >= ind.reproductionEnergyCost
    ensures b.offspring.Some? ==> b.offspring.value == NewTiger(Target(ind, ux, uy, w, h))
    ensures b.offspring.Some? && w >= 0 && h >= 0 ==> InWorld(b.offspring.value.position, w, h)
  {
    if !CanReproduce(ind) then Birth(ind, None)
    else
      Birth(ind.(energy := ind.energy - ind.reproductionEnergyCost, reproductionCooldown := 800),
            Some(NewTiger(Target(ind, ux, uy, w, h))))
  }

  /** A tiger that has just had a cub cannot reproduce again at once, and neither can the cub. */
  lemma ReproductionStartsCooldown(ind: Individual, ux: real, uy: real, w: int, h: int)
    requires Reproduce(ind, ux, uy, w, h).offspring.Some?
    ensures !CanReproduce(Reproduce(ind, ux, uy, w, h).parent)
    ensures !CanReproduce(Reproduce(ind, ux, uy, w, h).offspring.value)
  {
  }
}
