/**
 * The `Animal` class: the range query its foraging relies on, the search for
 * the nearest food, movement toward a target, the cooldown-gated intelligent
 * move, and the hunting cooldown.
 */
module Animals {
  import opened Geometry
  import opened Wrappers
  import opened Individuals

  /** The `Animal` constructor: the base constructor plus the consumer traits, with no cooldown running. */
  function NewAnimal(pos: Position, energy: real, maxAge: int, cost: real,
                     movementSpeed: real, energyConsumption: int, huntingRange: real,
                     huntingSuccessRate: real, detectionRange: real,
                     foodTypes: seq<string>, huntingCooldownDuration: int): (r: Individual)
    ensures r.kind == AnimalKind && r.position == pos && r.alive && r.age == 0 && r.maxAge == maxAge
    ensures r.energy == cost && r.maxEnergy == 4.0 * energy && r.reproductionEnergyCost == cost
    ensures r.reproductionCooldown == 0 && r.deathReason == ""
    ensures r.movementSpeed == movementSpeed && r.energyConsumption == energyConsumption
    ensures r.huntingRange == huntingRange && r.huntingSuccessRate == huntingSuccessRate
    ensures r.detectionRange == detectionRange && r.foodTypes == foodTypes
    ensures r.huntingCooldown == 0 && r.huntingCooldownDuration == huntingCooldownDuration
  {
    NewSpecies(pos, energy, maxAge, cost).(
      kind := AnimalKind,
      movementSpeed := movementSpeed, energyConsumption := energyConsumption,
      huntingRange := huntingRange, huntingSuccessRate := huntingSuccessRate,
      detectionRange := detectionRange, foodTypes := foodTypes,
      huntingCooldown := 0, huntingCooldownDuration := huntingCooldownDuration)
  }

  /** What the range query selects: a living individual no farther than `radius` from `center`. */
  predicate InReach(ind: Individual, center: Position, radius: real)
  {
    ind.alive && Within(center, ind.position, radius)
  }

  /**
   * `get_species_in_range` on one list: the indices of the members in reach,
   * in list order. (The query is called but not defined by the split revision;
   * this is the filter the monolithic revision writes inline.)
   */
  function InRangeIndices(list: seq<Individual>, center: Position, radius: real): (r: seq<nat>)
    ensures forall k :: 0 <= k < |r| ==> r[k] < |list| && InReach(list[r[k]], center, radius)
    ensures forall i :: 0 <= i < |list| && InReach(list[i], center, radius) ==> i in r
    ensures forall k, l :: 0 <= k < l < |r| ==> r[k] < r[l]
    decreases |list|
  {
    if list == [] then []
    else
      var prev := InRangeIndices(list[..|list| - 1], center, radius);
      if InReach(list[|list| - 1], center, radius) then prev + [|list| - 1] else prev
  }

  /** Scanning a prefix of a list finds a prefix of what scanning all of it finds. */
  lemma {:induction false} InRangePrefix(list: seq<Individual>, j: nat, center: Position, radius: real)
    requires j <= |list|
    ensures |InRangeIndices(list[..j], center, radius)| <= |InRangeIndices(list, center, radius)|
    ensures InRangeIndices(list[..j], center, radius)
            == InRangeIndices(list, center, radius)[..|InRangeIndices(list[..j], center, radius)|]
    decreases |list| - j
  {
    if j < |list| {
      var shorter := list[..|list| - 1];
      assert shorter[..j] == list[..j];
      InRangePrefix(shorter, j, center, radius);
    } else {
      assert list[..j] == list;
    }
  }

  /** The count of in-reach members of a prefix grows by one exactly at an in-reach member. */
  lemma InRangeStep(list: seq<Individual>, j: nat, center: Position, radius: real)
    requires j < |list|
    ensures InRangeIndices(list[..j + 1], center, radius)
            == InRangeIndices(list[..j], center, radius)
               + (if InReach(list[j], center, radius) then [j] else [])
  {
    assert list[..j + 1][..j] == list[..j];
  }

  /** A member in reach after `n` earlier in-reach members is the `n`-th index of the scan. */
  lemma NthInRange(list: seq<Individual>, i: nat, n: nat, center: Position, radius: real)
    requires i < |list| && InReach(list[i], center, radius)
    requires n == |InRangeIndices(list[..i], center, radius)|
    ensures n < |InRangeIndices(list, center, radius)| && InRangeIndices(list, center, radius)[n] == i
  {
    InRangeStep(list, i, center, radius);
    InRangePrefix(list, i + 1, center, radius);
    var pre := InRangeIndices(list[..i + 1], center, radius);
    assert pre[n] == i;
  }

  /** `get_species_in_range(name, center, radius)` over all species lists; empty for an unknown name. */
  function SpeciesInRange(world: map<string, seq<Individual>>, name: string, center: Position, radius: real): (r: seq<nat>)
    ensures name !in world ==> r == []
    ensures name in world ==> forall k :: 0 <= k < |r| ==> r[k] < |world[name]| && InReach(world[name][r[k]], center, radius)
    ensures name in world ==> forall i :: 0 <= i < |world[name]| && InReach(world[name][i], center, radius) ==> i in r
  {
    if name in world then InRangeIndices(world[name], center, radius) else []
  }

  /** The first member in reach, the one a scan with `break` stops at. */
  function FirstInRange(list: seq<Individual>, center: Position, radius: real): (r: Option<nat>)
    ensures r.None? ==> forall i :: 0 <= i < |list| ==> !InReach(list[i], center, radius)
    ensures r.Some? ==> r.value < |list| && InReach(list[r.value], center, radius)
    ensures r.Some? ==> forall i :: 0 <= i < r.value ==> !InReach(list[i], center, radius)
  {
    var c := InRangeIndices(list, center, radius);
    if |c| == 0 then None else Some(c[0])
  }

  /** A food candidate: the index of a food type in `food_types`, and of a member in that type's list. */
  datatype Cand = Cand(list: nat, index: nat)

  /** A living member of a food list within detection range. */
  predicate IsCandidate(ind: Individual, lists: seq<seq<Individual>>, c: Cand)
  {
    c.list < |lists| && c.index < |lists[c.list]| && InReach(lists[c.list][c.index], ind.position, ind.detectionRange)
  }

  ghost predicate NoCandidate(ind: Individual, lists: seq<seq<Individual>>)
  {
    forall o :: !IsCandidate(ind, lists, o)
  }

  function CandPosition(lists: seq<seq<Individual>>, c: Cand): Position
    requires c.list < |lists| && c.index < |lists[c.list]|
  {
    lists[c.list][c.index].position
  }

  function CandDist(ind: Individual, lists: seq<seq<Individual>>, c: Cand): real
    requires c.list < |lists| && c.index < |lists[c.list]|
  {
    DistSq(ind.position, CandPosition(lists, c))
  }

  /** Scan order: earlier food type first, then earlier list entry. */
  predicate Earlier(a: Cand, b: Cand)
  {
    a.list < b.list || (a.list == b.list && a.index < b.index)
  }

  /**
   * The candidate the strict `<` scan keeps: none is closer, and every candidate
   * scanned before it is strictly farther.
   */
  ghost predicate IsNearest(ind: Individual, lists: seq<seq<Individual>>, c: Cand)
  {
    && IsCandidate(ind, lists, c)
    && forall o :: IsCandidate(ind, lists, o) ==>
         CandDist(ind, lists, c) <= CandDist(ind, lists, o)
         && (Earlier(o, c) ==> CandDist(ind, lists, c) < CandDist(ind, lists, o))
  }

  /** The nearest candidate is determined uniquely. */
  lemma NearestIsUnique(ind: Individual, lists: seq<seq<Individual>>, a: Cand, b: Cand)
    requires IsNearest(ind, lists, a) && IsNearest(ind, lists, b)
    ensures a == b
  {
  }

  predicate ScannedBefore(o: Cand, t: nat, k: nat)
  {
    o.list < t || (o.list == t && o.index < k)
  }

  /** The loop invariant of the search: `best` is the nearest among the candidates scanned so far. */
  ghost predicate NearestSoFar(ind: Individual, lists: seq<seq<Individual>>, best: Option<Cand>, t: nat, k: nat)
  {
    && (best.None? ==> forall o :: IsCandidate(ind, lists, o) ==> !ScannedBefore(o, t, k))
    && (best.Some? ==>
          && IsCandidate(ind, lists, best.value) && ScannedBefore(best.value, t, k)
          && forall o :: IsCandidate(ind, lists, o) && ScannedBefore(o, t, k) ==>
               CandDist(ind, lists, best.value) <= CandDist(ind, lists, o)
               && (Earlier(o, best.value) ==> CandDist(ind, lists, best.value) < CandDist(ind, lists, o)))
  }

  /**
   * The search for the nearest food: over the food types in order, over each
   * list in order, keep a living member within detection range whenever it is
   * strictly closer than the best so far. `lists` holds one list per food type.
   */
  method FindNearestFood(ind: Individual, lists: seq<seq<Individual>>) returns (best: Option<Cand>)
    ensures best.None? <==> NoCandidate(ind, lists)
    ensures best.Some? ==> IsNearest(ind, lists, best.value)
  {
    best := None;
    var minDist := 0.0;
    var t := 0;
    while t < |lists|
      invariant 0 <= t <= |lists|
      invariant NearestSoFar(ind, lists, best, t, 0)
      invariant best.Some? ==> minDist == CandDist(ind, lists, best.value)
    {
      var k := 0;
      while k < |lists[t]|
        invariant 0 <= k <= |lists[t]|
        invariant NearestSoFar(ind, lists, best, t, k)
        invariant best.Some? ==> minDist == CandDist(ind, lists, best.value)
      {
        var food := lists[t][k];
        if food.alive {
          var d := DistSq(ind.position, food.position);
          if Within(ind.position, food.position, ind.detectionRange) && (best.None? || d < minDist) {
            best := Some(Cand(t, k));
            minDist := d;
          }
        }
        assert forall o :: ScannedBefore(o, t, k + 1) <==> ScannedBefore(o, t, k) || o == Cand(t, k);
        k := k + 1;
      }
      assert forall o :: IsCandidate(ind, lists, o) ==> (ScannedBefore(o, t, |lists[t]|) <==> ScannedBefore(o, t + 1, 0));
      t := t + 1;
    }
    assert forall o :: IsCandidate(ind, lists, o) ==> ScannedBefore(o, |lists|, 0);
  }

  /** The food lists an animal searches: one per food type, empty for a type the world does not hold. */
  function FoodLists(world: map<string, seq<Individual>>, foodTypes: seq<string>): (r: seq<seq<Individual>>)
    ensures |r| == |foodTypes|
    ensures forall i :: 0 <= i < |r| ==> r[i] == (if foodTypes[i] in world then world[foodTypes[i]] else [])
  {
    seq(|foodTypes|, i requires 0 <= i < |foodTypes| =>
      if foodTypes[i] in world then world[foodTypes[i]] else [])
  }

  /**
   * `move_towards_target`: a step of length `movement_speed` along the unit
   * vector toward the target, clamped into the world; no move when dead or
   * when the distance is not positive.
   */
  function MoveTowardsTarget(ind: Individual, target: Position, w: int, h: int, math: MathLib): (r: Individual)
    ensures !ind.alive ==> r == ind
    ensures math.sqrt(DistSq(target, ind.position)) <= 0.0 ==> r == ind
    ensures ind.alive && math.sqrt(DistSq(target, ind.position)) > 0.0 && w >= 0 && h >= 0 ==> InWorld(r.position, w, h)
    ensures r == ind.(position := r.position)
  {
    if !ind.alive then ind
    else
      var dx := target.x - ind.position.x;
      var dy := target.y - ind.position.y;
      assert dx * dx + dy * dy == DistSq(target, ind.position);
      var distance := math.sqrt(dx * dx + dy * dy);
      if distance > 0.0 then
        var sx := (dx / distance) * ind.movementSpeed;
        var sy := (dy / distance) * ind.movementSpeed;
        ind.(position := ClampToWorld(ind.position.x + sx, ind.position.y + sy, w, h))
      else ind
  }

  /**
   * What `intelligent_move` makes of `ind`: a dead animal stays as it is; a
   * running hunting cooldown only ticks down; otherwise the animal heads for
   * the nearest food or, with none in range, wanders.
   */
  ghost predicate IntelligentlyMoved(ind: Individual, lists: seq<seq<Individual>>, w: int, h: int,
                                     angle: real, math: MathLib, r: Individual)
  {
    if !ind.alive then r == ind
    else if ind.huntingCooldown > 0 then r == ind.(huntingCooldown := ind.huntingCooldown - 1)
    else if NoCandidate(ind, lists) then r == MoveRandomly(ind, w, h, ind.movementSpeed, angle, math)
    else exists c :: IsNearest(ind, lists, c) && r == MoveTowardsTarget(ind, CandPosition(lists, c), w, h, math)
  }

  /** The move is determined by its inputs: the nearest food is unique. */
  lemma IntelligentlyMovedIsUnique(ind: Individual, lists: seq<seq<Individual>>, w: int, h: int,
                                   angle: real, math: MathLib, r1: Individual, r2: Individual)
    requires IntelligentlyMoved(ind, lists, w, h, angle, math, r1)
    requires IntelligentlyMoved(ind, lists, w, h, angle, math, r2)
    ensures r1 == r2
  {
    if ind.alive && ind.huntingCooldown <= 0 && !NoCandidate(ind, lists) {
      var c1 :| IsNearest(ind, lists, c1) && r1 == MoveTowardsTarget(ind, CandPosition(lists, c1), w, h, math);
      var c2 :| IsNearest(ind, lists, c2) && r2 == MoveTowardsTarget(ind, CandPosition(lists, c2), w, h, math);
      NearestIsUnique(ind, lists, c1, c2);
    }
  }

  /** `intelligent_move`. Only the position and the hunting cooldown can change. */
  method IntelligentMove(ind: Individual, lists: seq<seq<Individual>>, w: int, h: int,
                         angle: real, math: MathLib) returns (r: Individual)
    ensures IntelligentlyMoved(ind, lists, w, h, angle, math, r)
    ensures r == ind.(position := r.position, huntingCooldown := r.huntingCooldown)
    ensures ind.alive && ind.huntingCooldown <= 0 ==> r == ind.(position := r.position)
    ensures w >= 0 && h >= 0 && InWorld(ind.position, w, h) ==> InWorld(r.position, w, h)
  {
    if !ind.alive {
      return ind;
    }
    if ind.huntingCooldown > 0 {
      return ind.(huntingCooldown := ind.huntingCooldown - 1);
    }
    var best := FindNearestFood(ind, lists);
    if best.Some? {
      r := MoveTowardsTarget(ind, CandPosition(lists, best.value), w, h, math);
    } else {
      r := MoveRandomly(ind, w, h, ind.movementSpeed, angle, math);
    }
  }

  /** `start_hunting_cooldown`: the cooldown restarts at its full duration. */
  function StartHuntingCooldown(ind: Individual): (r: Individual)
    ensures r.huntingCooldown == ind.huntingCooldownDuration
    ensures r == ind.(huntingCooldown := r.huntingCooldown)
  {
    ind.(huntingCooldown := ind.huntingCooldownDuration)
  }

  /**
   * A predator eats its prey: it gains the prey's energy, but never more than
   * its maximum (`energy = std::min(max_energy, energy + prey->energy)`).
   */
  function Feed(eater: Individual, prey: Individual): (r: Individual)
    ensures r.energy <= r.maxEnergy
    ensures prey.energy >= 0.0 ==> r.energy >= Min(eater.maxEnergy, eater.energy)
    ensures eater.energy + prey.energy <= eater.maxEnergy ==> r.energy == eater.energy + prey.energy
    ensures r == eater.(energy := r.energy)
  {
    eater.(energy := Min(eater.maxEnergy, eater.energy + prey.energy))
  }

  /** The prey list after member `k` is killed by `predator`: only that member changes. */
  function KillAt(prey: seq<Individual>, k: nat, predator: string): (r: seq<Individual>)
    requires k < |prey|
    ensures |r| == |prey|
    ensures forall i :: 0 <= i < |prey| && i != k ==> r[i] == prey[i]
    ensures !r[k].alive
    ensures prey[k].alive ==> r[k].deathReason == PredationReason(predator)
    ensures prey[k].alive ==> |AliveOnly(r)| == |AliveOnly(prey)| - 1
    ensures !prey[k].alive ==> r == prey
  {
    if prey[k].alive then
      KillOne(prey, k, PredationReason(predator));
      prey[k := DieFromPredation(prey[k], predator)]
    else prey
  }

  /** What a feeding scan leaves: the predator, and the prey list. */
  datatype Meal = Meal(eater: Individual, prey: seq<Individual>)
}

