/**
 * The individual organism and its lifecycle (the `Species` base class):
 * construction, death with a recorded reason, aging, cooldown decay,
 * the base reproduction test and random movement.
 *
 * An individual is a value; the engine's shared pointers become indices into
 * the per-species lists, and a method that updates fields in place becomes a
 * function from the old record to the new one.
 */
module Individuals {
  import opened Geometry
  import opened Wrappers

  /** The dynamic type of an individual: the plain base classes, or one of the three roles. */
  datatype Kind = BaseKind | AnimalKind | GrassKind | CowKind | TigerKind

  /**
   * The fields of `Species`, `Animal`, `Grass` and `Cow` in one record. Fields a
   * role does not have are zero for it.
   */
  datatype Individual = Individual(
    kind: Kind,
    position: Position,
    energy: real,
    maxEnergy: real,
    age: int,
    maxAge: int,
    alive: bool,
    reproductionCooldown: int,
    deathReason: string,
    speciesName: string,
    reproductionEnergyCost: real,
    // Grass
    baseGrowthRate: real,
    reproductionChance: real,
    competitionRadius: real,
    maxCompetitionEffect: real,
    // Animal
    movementSpeed: real,
    energyConsumption: int,
    huntingRange: real,
    huntingSuccessRate: real,
    detectionRange: real,
    foodTypes: seq<string>,
    huntingCooldown: int,
    huntingCooldownDuration: int,
    // Cow
    eatingRange: real)

  /** What `reproduce` leaves behind: the parent as updated, and the offspring if there is one. */
  datatype Birth = Birth(parent: Individual, offspring: Option<Individual>)

  const OldAgeReason: string := "Old age"
  const StarvationReason: string := "Starvation"
  /** The default argument of `die`. */
  const UnknownReason: string := "Unknown"

  function PredationReason(predator: string): string
  {
    "Predation by " + predator
  }

  /**
   * The `Species` constructor. Note that the starting energy is the reproduction
   * cost and the energy argument only sets the maximum, at four times its value.
   */
  function NewSpecies(pos: Position, energy: real, maxAge: int, cost: real): (r: Individual)
    ensures r.kind == BaseKind && r.position == pos
    ensures r.energy == cost && r.maxEnergy == 4.0 * energy && r.reproductionEnergyCost == cost
    ensures r.age == 0 && r.maxAge == maxAge && r.alive && r.reproductionCooldown == 0
    ensures r.deathReason == ""
  {
    Individual(BaseKind, pos, cost, energy * 4.0, 0, maxAge, true, 0, "", "Species", cost,
               0.0, 0.0, 0.0, 0.0,
               0.0, 0, 0.0, 0.0, 0.0, [], 0, 0,
               0.0)
  }

  /** A newborn holds exactly one reproduction cost of energy, so it cannot reproduce yet. */
  lemma NewbornCannotReproduce(pos: Position, energy: real, maxAge: int, cost: real)
    requires cost > 0.0
    ensures !CanReproduce(NewSpecies(pos, energy, maxAge, cost))
  {
  }

  /** `die(reason)`: only a living individual dies, and only then is the reason recorded. */
  function Die(ind: Individual, reason: string): (r: Individual)
    ensures !r.alive
    ensures ind.alive ==> r.deathReason == reason
    ensures !ind.alive ==> r == ind
    ensures r == ind.(alive := r.alive, deathReason := r.deathReason)
  {
    if ind.alive then ind.(alive := false, deathReason := reason) else ind
  }

  function DieFromOldAge(ind: Individual): (r: Individual)
    ensures !r.alive && (ind.alive ==> r.deathReason == "Old age") && (!ind.alive ==> r == ind)
  {
    Die(ind, OldAgeReason)
  }

  function DieFromStarvation(ind: Individual): (r: Individual)
    ensures !r.alive && (ind.alive ==> r.deathReason == "Starvation") && (!ind.alive ==> r == ind)
  {
    Die(ind, StarvationReason)
  }

  function DieFromPredation(ind: Individual, predator: string): (r: Individual)
    ensures !r.alive && (ind.alive ==> r.deathReason == "Predation by " + predator)
    ensures !ind.alive ==> r == ind
    ensures r == ind.(alive := r.alive, deathReason := r.deathReason)
  {
    Die(ind, PredationReason(predator))
  }

  /**
   * `age_one_step`: the age rises by one whether or not the individual is alive,
   * and reaching the maximum age kills a living one of old age.
   */
  function AgeOneStep(ind: Individual): (r: Individual)
    ensures r.age == ind.age + 1
    ensures r.age >= r.maxAge ==> !r.alive
    ensures r.alive <==> ind.alive && ind.age + 1 < ind.maxAge
    ensures ind.alive && !r.alive ==> r.deathReason == OldAgeReason
    ensures !ind.alive ==> r.deathReason == ind.deathReason
    ensures r == ind.(age := r.age, alive := r.alive, deathReason := r.deathReason)
  {
    var older := ind.(age := ind.age + 1);
    if older.age >= older.maxAge then DieFromOldAge(older) else older
  }

  /** `Species::update` of the split revision: cooldown decay, then aging; nothing at all when dead. */
  function Update(ind: Individual): (r: Individual)
    ensures !ind.alive ==> r == ind
    ensures ind.alive ==> r.age == ind.age + 1
    ensures ind.alive && ind.reproductionCooldown > 0 ==> r.reproductionCooldown == ind.reproductionCooldown - 1
    ensures ind.alive && ind.reproductionCooldown <= 0 ==> r.reproductionCooldown == ind.reproductionCooldown
    ensures ind.reproductionCooldown >= 0 ==> r.reproductionCooldown >= 0
    ensures r.alive <==> ind.alive && ind.age + 1 < ind.maxAge
    ensures ind.alive && !r.alive ==> r.deathReason == OldAgeReason
    ensures r == ind.(age := r.age, alive := r.alive, deathReason := r.deathReason,
                      reproductionCooldown := r.reproductionCooldown)
  {
    if !ind.alive then ind
    else
      var cooled := if ind.reproductionCooldown > 0
                    then ind.(reproductionCooldown := ind.reproductionCooldown - 1) else ind;
      AgeOneStep(cooled)
  }

  /**
   * The base reproduction test shared by every role: only a living
   * individual with no reproduction cooldown running can reproduce.
   */
  predicate CanReproduce(ind: Individual): (b: bool)
    ensures b ==> ind.alive && ind.reproductionCooldown <= 0
    ensures b && ind.reproductionEnergyCost >= 0.0 ==> ind.energy >= 0.0
  {
    ind.alive && ind.energy >= ind.reproductionEnergyCost * 2.0 && ind.reproductionCooldown <= 0
  }

  /** The base `reproduce`, which plain species and plain animals keep: never an offspring. */
  function ReproduceBase(ind: Individual): (b: Birth)
    ensures b.offspring == None && b.parent == ind
  {
    Birth(ind, None)
  }

  /**
   * `move_randomly`: one step of length `speed` along the drawn heading,
   * clamped into the world. A dead individual stays where it is.
   */
  function MoveRandomly(ind: Individual, w: int, h: int, speed: real, angle: real, math: MathLib): (r: Individual)
    ensures !ind.alive ==> r == ind
    ensures ind.alive && w >= 0 && h >= 0 ==> InWorld(r.position, w, h)
    ensures r == ind.(position := r.position)
  {
    if !ind.alive then ind
    else
      var dx := math.cos(angle) * speed;
      var dy := math.sin(angle) * speed;
      ind.(position := ClampToWorld(ind.position.x + dx, ind.position.y + dy, w, h))
  }

  /** The lifecycle operations of the base class, as events that can befall an individual. */
  datatype LifeEvent = Perish(reason: string) | GrowOlder | Tick | Wander(w: int, h: int, speed: real, angle: real)

  function Apply(ind: Individual, e: LifeEvent, math: MathLib): Individual
  {
    match e
    case Perish(reason) => Die(ind, reason)
    case GrowOlder => AgeOneStep(ind)
    case Tick => Update(ind)
    case Wander(w, h, speed, angle) => MoveRandomly(ind, w, h, speed, angle, math)
  }

  function ApplyAll(ind: Individual, events: seq<LifeEvent>, math: MathLib): Individual
    decreases |events|
  {
    if events == [] then ind else ApplyAll(Apply(ind, events[0], math), events[1..], math)
  }

  /** Dead is terminal: no sequence of lifecycle operations revives an individual or rewrites its reason. */
  lemma {:induction false} DeathIsFinal(ind: Individual, events: seq<LifeEvent>, math: MathLib)
    requires !ind.alive
    ensures !ApplyAll(ind, events, math).alive
    ensures ApplyAll(ind, events, math).deathReason == ind.deathReason
    decreases |events|
  {
    if events != [] {
      DeathIsFinal(Apply(ind, events[0], math), events[1..], math);
    }
  }

  /** The first cause of death is the one that stays recorded, whatever happens afterwards. */
  lemma FirstReasonSticks(ind: Individual, reason: string, events: seq<LifeEvent>, math: MathLib)
    requires ind.alive
    ensures ApplyAll(Die(ind, reason), events, math).deathReason == reason
    ensures !ApplyAll(Die(ind, reason), events, math).alive
  {
    DeathIsFinal(Die(ind, reason), events, math);
  }

  /** The living members of a list, in order: what removing the dead leaves. */
  function AliveOnly(list: seq<Individual>): (r: seq<Individual>)
    ensures |r| <= |list|
    decreases |list|
  {
    if list == [] then []
    else
      var n := |list| - 1;
      AliveOnly(list[..n]) + (if list[n].alive then [list[n]] else [])
  }

  /** The filtered list holds exactly the living members of the list. */
  lemma {:induction false} AliveOnlyMembers(list: seq<Individual>)
    ensures forall x :: x in AliveOnly(list) <==> x in list && x.alive
    decreases |list|
  {
    if list != [] {
      var n := |list| - 1;
      AliveOnlyMembers(list[..n]);
      assert list == list[..n] + [list[n]];
    }
  }

  /** The number of members whose `alive` flag is down (std::count_if with `!alive`). */
  function DeadCount(list: seq<Individual>): (n: nat)
    ensures n <= |list|
    ensures n == 0 <==> forall i :: 0 <= i < |list| ==> list[i].alive
    decreases |list|
  {
    if list == [] then 0
    else
      var k := |list| - 1;
      assert forall i :: 0 <= i < k ==> list[..k][i] == list[i];
      DeadCount(list[..k]) + (if list[k].alive then 0 else 1)
  }

  /** Removing the dead keeps exactly the living: the two counts add up to the list's length. */
  lemma {:induction false} AliveAndDeadPartition(list: seq<Individual>)
    ensures |AliveOnly(list)| + DeadCount(list) == |list|
    decreases |list|
  {
    if list != [] {
      AliveAndDeadPartition(list[..|list| - 1]);
    }
  }

  /** Filtering works member by member, so the survivors keep their relative order. */
  lemma {:induction false} AliveOnlyAppend(a: seq<Individual>, b: seq<Individual>)
    ensures AliveOnly(a + b) == AliveOnly(a) + AliveOnly(b)
    decreases |b|
  {
    if b != [] {
      var n := |b| - 1;
      assert (a + b)[..|a + b| - 1] == a + b[..n];
      AliveOnlyAppend(a, b[..n]);
    } else {
      assert a + b == a;
    }
  }

  /** Filtering a list whose members all live changes nothing. */
  lemma {:induction false} AliveOnlyAllAlive(list: seq<Individual>)
    requires forall i :: 0 <= i < |list| ==> list[i].alive
    ensures AliveOnly(list) == list
    decreases |list|
  {
    if list != [] {
      var n := |list| - 1;
      assert forall i :: 0 <= i < n ==> list[..n][i] == list[i];
      AliveOnlyAllAlive(list[..n]);
      assert list == list[..n] + [list[n]];
    }
  }

  /** Filtering twice is filtering once. */
  lemma AliveOnlyIdempotent(list: seq<Individual>)
    ensures AliveOnly(AliveOnly(list)) == AliveOnly(list)
  {
    var r := AliveOnly(list);
    AliveOnlyMembers(list);
    assert forall i :: 0 <= i < |r| ==> r[i] in r;
    AliveOnlyAllAlive(r);
  }

  /** Killing one living member of a list leaves exactly one fewer alive; the others are untouched. */
  lemma {:induction false} KillOne(list: seq<Individual>, k: nat, reason: string)
    requires k < |list| && list[k].alive
    ensures |AliveOnly(list[k := Die(list[k], reason)])| == |AliveOnly(list)| - 1
    decreases |list|
  {
    var n := |list| - 1;
    var killed := list[k := Die(list[k], reason)];
    var tail := if list[n].alive then 1 else 0;
    assert |AliveOnly(list)| == |AliveOnly(list[..n])| + tail;
    if k == n {
      assert killed[..n] == list[..n];
      assert !killed[n].alive;
      assert |AliveOnly(killed)| == |AliveOnly(killed[..n])|;
    } else {
      assert killed[..n] == list[..n][k := Die(list[k], reason)];
      assert killed[n] == list[n];
      assert |AliveOnly(killed)| == |AliveOnly(killed[..n])| + tail;
      KillOne(list[..n], k, reason);
    }
  }
}
