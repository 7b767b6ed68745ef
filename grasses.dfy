/**
 * The `Grass` class (the producer) of the split revision: local density from
 * the precomputed position rows or, failing those, from the grass list; the
 * competition-adjusted growth rate; growth; and reproduction that rejects a
 * target on the world's edge.
 */
module Grasses {
  import opened Geometry
  import opened Wrappers
  import opened Individuals

  /** The `Grass` constructor: energy 40 (maximum 160), lifespan 2000, cost 40, and the growth traits. */
  function NewGrass(pos: Position): (r: Individual)
    ensures r.kind == GrassKind && r.position == pos && r.alive && r.age == 0 && r.deathReason == ""
    ensures r.energy == 40.0 && r.maxEnergy == 160.0 && r.maxAge == 2000 && r.reproductionEnergyCost == 40.0
    ensures r.reproductionCooldown == 0
    ensures r.baseGrowthRate == 0.9 && r.reproductionChance == 0.4
    ensures r.competitionRadius == 30.0 && r.maxCompetitionEffect == 0.9
  {
    NewSpecies(pos, 40.0, 2000, 40.0).(
      kind := GrassKind, baseGrowthRate := 0.9, reproductionChance := 0.4,
      competitionRadius := 30.0, maxCompetitionEffect := 0.9)
  }

  /**
   * One row of the precomputed arrays: the position of a living grass (a copy,
   * `grass_positions_array`) and which member of the grass list it is (the
   * shared pointer in `alive_grass_objects`, here an index).
   */
  datatype GrassRow = GrassRow(position: Position, index: nat)

  /** The rows precomputed from a grass list: its living members, in list order. */
  function AliveRows(list: seq<Individual>): (rows: seq<GrassRow>)
    ensures |rows| <= |list|
    ensures forall k :: 0 <= k < |rows| ==>
              rows[k].index < |list| && list[rows[k].index].alive && rows[k].position == list[rows[k].index].position
    ensures forall i :: 0 <= i < |list| && list[i].alive ==> GrassRow(list[i].position, i) in rows
    ensures forall k, l :: 0 <= k < l < |rows| ==> rows[k].index < rows[l].index
    decreases |list|
  {
    if list == [] then []
    else
      var n := |list| - 1;
      assert forall i :: 0 <= i < n ==> list[..n][i] == list[i];
      var prev := AliveRows(list[..n]);
      if list[n].alive then prev + [GrassRow(list[n].position, n)] else prev
  }

  /** Rows exist exactly when some grass is alive. */
  lemma AliveRowsEmpty(list: seq<Individual>)
    ensures AliveRows(list) == [] <==> forall i :: 0 <= i < |list| ==> !list[i].alive
  {
  }

  /** The number of rows other than row `skip` within `radius` of `center`. */
  function CountNear(rows: seq<GrassRow>, center: Position, radius: real, skip: int): (n: nat)
    ensures n <= |rows|
    decreases |rows|
  {
    if rows == [] then 0
    else
      var last := |rows| - 1;
      CountNear(rows[..last], center, radius, skip)
        + (if last != skip && Within(center, rows[last].position, radius) then 1 else 0)
  }

  /** The counting loop over the (filtered) rows. */
  method CountNeighbours(rows: seq<GrassRow>, center: Position, radius: real, skip: int) returns (n: nat)
    ensures n == CountNear(rows, center, radius, skip)
  {
    n := 0;
    var i := 0;
    while i < |rows|
      invariant 0 <= i <= |rows|
      invariant n == CountNear(rows[..i], center, radius, skip)
    {
      assert rows[..i + 1][..i] == rows[..i];
      if i != skip && Within(center, rows[i].position, radius) {
        n := n + 1;
      }
      i := i + 1;
    }
    assert rows[..i] == rows;
  }

  /** `M_PI * r * r / divisor`, the most grass a disc of radius r can hold. */
  function MaxPossibleGrass(radius: real, divisor: real, math: MathLib): real
    requires divisor > 0.0
  {
    math.pi * (radius * radius) / divisor
  }

  /**
   * `std::min(1.0, count / max_possible_grass)`. When the disc has no area the
   * double division gives infinity or NaN and std::min answers 1.0; the model
   * takes that branch explicitly.
   */
  function DensityOf(count: nat, radius: real, divisor: real, math: MathLib): (d: real)
    requires divisor > 0.0
    ensures math.pi > 0.0 ==> 0.0 <= d <= 1.0
    ensures MaxPossibleGrass(radius, divisor, math) != 0.0 && count == 0 ==> d == 0.0
    ensures MaxPossibleGrass(radius, divisor, math) > 0.0 && count > 0 ==> d > 0.0
  {
    var m := MaxPossibleGrass(radius, divisor, math);
    DiscArea(radius, divisor, math);
    if m == 0.0 then 1.0 else Min(1.0, count as real / m)
  }

  lemma DiscArea(radius: real, divisor: real, math: MathLib)
    requires divisor > 0.0
    ensures math.pi > 0.0 ==> MaxPossibleGrass(radius, divisor, math) >= 0.0
  {
  }

  /** The position in `alive_grass_objects` of the grass with list index `selfIndex`, or -1. */
  function SelfRow(rows: seq<GrassRow>, selfIndex: nat): (k: int)
    ensures -1 <= k < |rows|
    ensures k == -1 ==> forall j :: 0 <= j < |rows| ==> rows[j].index != selfIndex
    ensures k >= 0 ==> rows[k].index == selfIndex && forall j :: 0 <= j < k ==> rows[j].index != selfIndex
    decreases |rows|
  {
    if rows == [] then -1
    else if rows[0].index == selfIndex then 0
    else
      var k := SelfRow(rows[1..], selfIndex);
      if k < 0 then -1 else k + 1
  }

  /** The search for the caller's own row, which stops at the first match. */
  method FindSelfRow(rows: seq<GrassRow>, selfIndex: nat) returns (k: int)
    ensures k == SelfRow(rows, selfIndex)
  {
    k := -1;
    var i := 0;
    while i < |rows|
      invariant 0 <= i <= |rows|
      invariant forall j :: 0 <= j < i ==> rows[j].index != selfIndex
    {
      if rows[i].index == selfIndex {
        k := i;
        return;
      }
      i := i + 1;
    }
  }

  /**
   * The row the split revision leaves out: its own, but only when it found
   * itself and there is more than one row.
   */
  function SplitSkip(rows: seq<GrassRow>, selfIndex: nat): int
  {
    var s := SelfRow(rows, selfIndex);
    if s >= 0 && |rows| > 1 then s else -1
  }

  /** `calculate_nearby_grass_density_optimized` of the split revision (area per grass 400). */
  method OptimizedDensity(self: Individual, selfIndex: nat, rows: seq<GrassRow>, math: MathLib) returns (d: real)
    ensures rows == [] ==> d == 0.0
    ensures rows != [] ==> d == DensityOf(CountNear(rows, self.position, self.competitionRadius, SplitSkip(rows, selfIndex)),
                                          self.competitionRadius, 400.0, math)
    ensures math.pi > 0.0 ==> 0.0 <= d <= 1.0
  {
    if |rows| == 0 {
      return 0.0;
    }
    var selfRow := FindSelfRow(rows, selfIndex);
    var skip := if selfRow >= 0 && |rows| > 1 then selfRow else -1;
    var count := CountNeighbours(rows, self.position, self.competitionRadius, skip);
    d := DensityOf(count, self.competitionRadius, 400.0, math);
  }

  /**
   * A grass that is the only row is not left out: it is at distance 0 from
   * itself, so it counts itself and its density is positive.
   */
  lemma SoleRowCountsItself(self: Individual, selfIndex: nat, rows: seq<GrassRow>, math: MathLib)
    requires rows == [GrassRow(self.position, selfIndex)]
    requires self.competitionRadius >= 0.0
    ensures CountNear(rows, self.position, self.competitionRadius, SplitSkip(rows, selfIndex)) == 1
    ensures MaxPossibleGrass(self.competitionRadius, 400.0, math) > 0.0 ==>
              DensityOf(1, self.competitionRadius, 400.0, math) > 0.0
  {
    assert SelfRow(rows, selfIndex) == 0;
    assert rows[..0] == [];
    SquareNonNegative(self.competitionRadius);
    assert DistSq(self.position, self.position) == 0.0;
  }

  /** The number of living members other than the caller. */
  function CountOthers(list: seq<Individual>, selfIndex: nat): (n: nat)
    ensures n <= |list|
    ensures n == 0 <==> forall j :: 0 <= j < |list| && j != selfIndex ==> !list[j].alive
    decreases |list|
  {
    if list == [] then 0
    else
      var last := |list| - 1;
      assert forall j :: 0 <= j < last ==> list[..last][j] == list[j];
      CountOthers(list[..last], selfIndex) + (if last != selfIndex && list[last].alive then 1 else 0)
  }

  /** The number of living members other than the caller within `radius` of `center`. */
  function CountOthersNear(list: seq<Individual>, selfIndex: nat, center: Position, radius: real): (n: nat)
    ensures n <= CountOthers(list, selfIndex)
    decreases |list|
  {
    if list == [] then 0
    else
      var last := |list| - 1;
      CountOthersNear(list[..last], selfIndex, center, radius)
        + (if last != selfIndex && list[last].alive && Within(center, list[last].position, radius) then 1 else 0)
  }

  /**
   * `calculate_nearby_grass_density`'s fallback over the grass list (area per
   * grass 100): zero without a list, with an empty one, or with no other living
   * grass. `grass` is None when the snapshot holds no "grass" entry.
   */
  method FallbackDensity(self: Individual, selfIndex: nat, grass: Option<seq<Individual>>, math: MathLib) returns (d: real)
    ensures grass.None? ==> d == 0.0
    ensures grass.Some? && grass.value == [] ==> d == 0.0
    ensures grass.Some? && CountOthers(grass.value, selfIndex) == 0 ==> d == 0.0
    ensures grass.Some? && CountOthers(grass.value, selfIndex) > 0 ==>
              d == DensityOf(CountOthersNear(grass.value, selfIndex, self.position, self.competitionRadius),
                             self.competitionRadius, 100.0, math)
    ensures math.pi > 0.0 ==> 0.0 <= d <= 1.0
  {
    if grass.None? || |grass.value| == 0 {
      return 0.0;
    }
    var list := grass.value;
    var others := 0;
    var near := 0;
    var i := 0;
    while i < |list|
      invariant 0 <= i <= |list|
      invariant others == CountOthers(list[..i], selfIndex)
      invariant near == CountOthersNear(list[..i], selfIndex, self.position, self.competitionRadius)
    {
      assert list[..i + 1][..i] == list[..i];
      if i != selfIndex && list[i].alive {
        others := others + 1;
        if Within(self.position, list[i].position, self.competitionRadius) {
          near := near + 1;
        }
      }
      i := i + 1;
    }
    assert list[..i] == list;
    if others == 0 {
      return 0.0;
    }
    d := DensityOf(near, self.competitionRadius, 100.0, math);
  }

  /** The grass list and its rows as a fresh snapshot of the world shows them. */
  function GrassListOf(world: map<string, seq<Individual>>): Option<seq<Individual>>
  {
    if "grass" in world then Some(world["grass"]) else None
  }

  function RowsOf(world: map<string, seq<Individual>>): seq<GrassRow>
  {
    if "grass" in world then AliveRows(world["grass"]) else []
  }

  /**
   * The density a grass sees: the row-based count when any grass is alive.
   * With no living grass the fallback finds no other living grass either, so
   * it is 0.
   */
  function LocalDensity(self: Individual, selfIndex: nat, world: map<string, seq<Individual>>, math: MathLib): (d: real)
    ensures math.pi > 0.0 ==> 0.0 <= d <= 1.0
    ensures RowsOf(world) == [] ==> d == 0.0
  {
    var rows := RowsOf(world);
    if rows == [] then 0.0
    else DensityOf(CountNear(rows, self.position, self.competitionRadius, SplitSkip(rows, selfIndex)),
                   self.competitionRadius, 400.0, math)
  }

  /**
   * `calculate_nearby_grass_density`: the row-based computation when any grass
   * is alive, the list-based fallback otherwise.
   */
  method NearbyDensity(self: Individual, selfIndex: nat, world: map<string, seq<Individual>>, math: MathLib)
    returns (d: real)
    ensures d == LocalDensity(self, selfIndex, world, math)
  {
    var rows := RowsOf(world);
    if |rows| > 0 {
      d := OptimizedDensity(self, selfIndex, rows, math);
    } else {
      if "grass" in world {
        AliveRowsEmpty(world["grass"]);
      }
      d := FallbackDensity(self, selfIndex, GrassListOf(world), math);
    }
  }

  /**
   * `get_competition_adjusted_growth_rate` given the density: the crowding
   * factor `1 - density^0.3 * max_competition_effect`, replaced by 2.0 on an
   * empty neighbourhood, and floored at 1% of the base rate.
   */
  function GrowthRate(density: real, base: real, maxEffect: real, math: MathLib): (r: real)
    ensures r >= base * 0.01
    ensures density == 0.0 && base >= 0.0 ==> r == 2.0 * base
    ensures base >= 0.0 ==> r >= 0.0
  {
    var factor := if density == 0.0 then 2.0 else 1.0 - math.pow(density, 0.3) * maxEffect;
    Max(base * 0.01, base * factor)
  }

  /**
   * `Grass::update`: the base update (cooldown and aging); a grass that died
   * there does not grow; a living one gains the adjusted rate, capped at its
   * maximum energy.
   */
  method Update(self: Individual, selfIndex: nat, world: map<string, seq<Individual>>, math: MathLib)
    returns (r: Individual)
    ensures !Individuals.Update(self).alive ==> r == Individuals.Update(self)
    ensures r.alive ==> r == Individuals.Update(self).(energy := r.energy)
    ensures r.alive ==> r.energy <= r.maxEnergy
    ensures r.alive && self.baseGrowthRate >= 0.0 ==> r.energy >= Min(self.maxEnergy, self.energy)
    ensures r.alive ==>
              r.energy == Min(self.maxEnergy, self.energy + GrowthRate(LocalDensity(Individuals.Update(self), selfIndex, world, math),
                                                               self.baseGrowthRate, self.maxCompetitionEffect, math))
    ensures self.energy <= self.maxEnergy ==> r.energy <= r.maxEnergy
    ensures self.alive ==> r.age == self.age + 1
  {
    var u := Individuals.Update(self);
    if !u.alive {
      return u;
    }
    var density := NearbyDensity(u, selfIndex, world, math);
    var rate := GrowthRate(density, u.baseGrowthRate, u.maxCompetitionEffect, math);
    r := u.(energy := Min(u.maxEnergy, u.energy + rate));
    r := if r.age >= r.maxAge then Die(r, UnknownReason) else r;
  }

  /** `Grass::can_reproduce`: the base test and a chance gate (`gate` is rand()/RAND_MAX). */
  predicate CanReproduce(ind: Individual, gate: real): (b: bool)
    ensures b ==> Individuals.CanReproduce(ind)
    ensures gate >= ind.reproductionChance ==> !b
  {
    Individuals.CanReproduce(ind) && gate < ind.reproductionChance
  }

  /** Where an offspring would land: up to 200 away on each axis, clamped into the world. */
  function Target(ind: Individual, ux: real, uy: real, w: int, h: int): Position
  {
    ClampToWorld(ind.position.x + Uniform(ux, -200.0, 200.0), ind.position.y + Uniform(uy, -200.0, 200.0), w, h)
  }

  predicate StrictlyInside(p: Position, w: int, h: int)
  {
    0.0 < p.x < w as real && 0.0 < p.y < h as real
  }

  /**
   * `Grass::reproduce`: it checks eligibility again with a fresh gate draw, and
   * gives up, leaving the parent as it was, when the clamped target lies on an
   * edge of the world; otherwise the parent pays the cost and waits 10 steps.
   */
  function Reproduce(ind: Individual, gate: real, ux: real, uy: real, w: int, h: int): (b: Birth)
    ensures b.offspring.Some? <==> CanReproduce(ind, gate) && StrictlyInside(Target(ind, ux, uy, w, h), w, h)
    ensures b.offspring.None? ==> b.parent == ind
    ensures b.offspring.Some? ==>
              b.parent == ind.(energy := ind.energy - ind.reproductionEnergyCost, reproductionCooldown := 10)
    ensures b.offspring.Some? ==> b.parent.energy >= ind.reproductionEnergyCost
    ensures b.offspring.Some? ==>
              b.offspring.value == NewGrass(Target(ind, ux, uy, w, h))
              && StrictlyInside(b.offspring.value.position, w, h)
  {
    if !CanReproduce(ind, gate) then Birth(ind, None)
    else
      var p := Target(ind, ux, uy, w, h);
      if p.x <= 0.0 || p.x >= w as real || p.y <= 0.0 || p.y >= h as real then Birth(ind, None)
      else
        Birth(ind.(energy := ind.energy - ind.reproductionEnergyCost, reproductionCooldown := 10), Some(NewGrass(p)))
  }

  /** After a successful reproduction the parent must wait: it fails the base test at once. */
  lemma ReproductionStartsCooldown(ind: Individual, gate: real, gate2: real, ux: real, uy: real, w: int, h: int)
    requires Reproduce(ind, gate, ux, uy, w, h).offspring.Some?
    ensures !CanReproduce(Reproduce(ind, gate, ux, uy, w, h).parent, gate2)
  {
  }
}
