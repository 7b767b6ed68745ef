# EcosysQT engine core in Dafny

This project models the simulation engine of EcosysQT, a predator–prey
ecosystem simulator with three species. Grass is the producer. Cows graze on
grass, and tigers hunt cows. The model covers these parts of `backend/`:

- the individual's lifecycle (`Species`): construction, death with a recorded
  reason, aging, cooldown decay, random movement and the base reproduction test;
- the `Animal` behaviour: the range query, the nearest-food search, movement
  toward a target, the cooldown-gated intelligent move and the hunting cooldown;
- the three roles, in the split files (`grass.cpp`, `cow.cpp`, `tiger.cpp`):
  - grass density and competition-adjusted growth;
  - cow grazing;
  - tiger hunting with a success rate that depends on hunger and age;
  - each species' reproduction;
- the older single-file revision `species.cpp`, where it differs. It ages
  inside the role updates, excludes a grass's own row differently, and reads
  from a per-tick snapshot. `ecosystem.cpp` is built against this revision;
- the bookkeeping of `ecosystem.cpp`:
  - the birth and death counters (`SpeciesStatistics`);
  - the name-indexed registry (`SpeciesRegistry`);
  - the phases of `EcosystemState`: seeding, the snapshot, update,
    reproduction, statistics, cleanup, the detail snapshot, reset and the
    extinction check;
- the creator registry of `species_factory.cpp`.

Modelling choices:

- **Individuals are values.** An individual is a flat record with a kind tag
  (`Individuals.Individual`). A member function that updates fields in place
  becomes a function from the old record to the new one.
- **Lists and pointers.** The registry owns every species' list as a
  `seq<Individual>`, and a shared pointer becomes an index into that list.
- **Stateful objects are classes.** The counter objects, the registry, the
  whole engine state and the factory are classes whose methods modify them.
- **Loops stay loops.** The source's loops are `while` loops proved against
  specification functions: the nearest-food scan, the density counts, the
  grazing and hunting scans, and every per-species phase.
- **Maps keep their key order.** `std::map<std::string, _>` becomes a Dafny map
  plus its keys as a sequence sorted by `KeyOrder.Less`. This matters because
  every phase visits species in key order: cow, grass, tiger. Every operation
  that goes through `operator[]` inserts a value-initialised entry for a
  missing name, as the C++ does.
- **Randomness is a parameter.** `rand()` and the `mt19937` draws appear as
  explicit inputs: `SpawnDraws`, `TickDraws`, `BirthDraws`, a heading angle,
  unit draws for `uniform_real_distribution`, and a `nat -> real` sequence of
  hunting draws.
- **Math is uninterpreted.** `std::sqrt`, `std::pow`, `std::cos`, `std::sin`
  and `M_PI` are uninterpreted fields of `Geometry.MathLib`.
- **Distances are squared.** Distance tests compare squared distances with
  squared radii (`Geometry.Within`).

## Model

| member | source | states |
|---|---|---|
| Geometry.Clamp | backend/models/species_base.cpp:53-54 | the clamped coordinate lies in [0, limit] and a coordinate already inside is unchanged |
| Geometry.ClampToWorld | backend/models/species_base.cpp:53-54 | a clamped move target always lies inside the world rectangle |
| Geometry.DistSq | backend/include/utils.h:20-22 | the squared Euclidean distance is never negative |
| Geometry.Uniform | backend/models/species/cow.cpp:78-82 | a unit draw mapped to uniform_real_distribution(lo, hi) lies in [lo, hi] |
| KeyOrder.Insert | backend/models/ecosystem.cpp:39 | inserting a key into std::map's key order adds exactly that key, and grows the order by one when it is new |
| KeyOrder.InsertSorted | backend/models/ecosystem.cpp:48-52 | insertion keeps the key order strictly ascending, which is the order map iteration visits |
| KeyOrder.SortedIsDistinct | backend/models/ecosystem.cpp:48-52 | a strictly ascending key order lists no name twice |
| KeyOrder.SpeciesInsertions | backend/models/ecosystem.cpp:33-37 | registering grass, cow and tiger in that order leaves map iteration order cow, grass, tiger |
| Individuals.NewSpecies | backend/models/species_base.cpp:14-24 | a newborn is alive, age 0, no cooldown, no death reason; its starting energy is the reproduction cost and its maximum is four times the energy argument |
| Individuals.NewbornCannotReproduce | backend/models/species_base.cpp:14-36 | with a positive cost, a freshly constructed individual fails the reproduction test (energy = cost < 2 × cost) |
| Individuals.Die | backend/models/species_base.cpp:63-69 | afterwards the individual is dead; the reason is recorded only if it was alive; a dead one is left exactly as it was; only alive and the reason change |
| Individuals.DieFromOldAge | backend/models/species_base.cpp:71 | death with reason "Old age", recorded only for a living individual |
| Individuals.DieFromStarvation | backend/models/species_base.cpp:72 | death with reason "Starvation", recorded only for a living individual |
| Individuals.DieFromPredation | backend/models/species_base.cpp:73 | death with reason "Predation by " + predator, recorded only for a living individual; nothing else changes |
| Individuals.AgeOneStep | backend/models/species_base.cpp:57-61 | age rises by exactly one; the result is alive iff it was alive and the new age is below the maximum; reaching the maximum records "Old age" |
| Individuals.CanReproduce | backend/models/species_base.cpp:33-36 | only a living individual with no reproduction cooldown running passes the base test, and with a non-negative cost it holds non-negative energy |
| Individuals.Update | backend/models/species_base.cpp:26-31 | a dead individual is untouched; a living one ages by one, its positive cooldown drops by one, a non-negative cooldown stays non-negative, and it survives iff age + 1 < max_age, otherwise recording "Old age" |
| Individuals.ReproduceBase | backend/models/species_base.cpp:38-41 | the base class never produces an offspring and leaves the parent unchanged |
| Individuals.MoveRandomly | backend/models/species_base.cpp:43-55 | a dead individual does not move; a living one ends inside the world; only the position changes |
| Individuals.DeathIsFinal | backend/models/species_base.cpp:63-73 | no sequence of lifecycle operations (die, age, update, move) revives a dead individual or rewrites its death reason |
| Individuals.FirstReasonSticks | backend/models/species_base.cpp:63-69 | the first cause of death stays the recorded one through any later lifecycle operations |
| Individuals.AliveOnlyMembers | backend/models/ecosystem.cpp:75-79 | after the remove_if erase, the list holds exactly the members that are alive |
| Individuals.AliveOnly | backend/models/ecosystem.cpp:75-79 | removing the dead never lengthens the list |
| Individuals.DeadCount | backend/models/ecosystem.cpp:167-168 | the dead count is at most the list length, and zero iff every member is alive |
| Individuals.AliveAndDeadPartition | backend/models/ecosystem.cpp:164-176 | survivors plus counted dead make up the whole list |
| Individuals.AliveOnlyAppend | backend/models/ecosystem.cpp:75-79 | filtering works member by member, so survivors keep their relative order |
| Individuals.AliveOnlyAllAlive | backend/models/ecosystem.cpp:75-79 | filtering a list with no dead member changes nothing |
| Individuals.AliveOnlyIdempotent | backend/models/ecosystem.cpp:80-82 | filtering twice is the same as filtering once |
| Individuals.KillOne | backend/models/species/cow.cpp:40-46 | killing one living member leaves exactly one fewer alive |
| Animals.NewAnimal | backend/models/animal.cpp:14-33 | the base constructor's fields plus the consumer traits as passed, with no hunting cooldown running |
| Animals.InRangeIndices | backend/models/animal.cpp:92 | the range query returns exactly the living members within the radius, in ascending list order |
| Animals.SpeciesInRange | backend/models/animal.cpp:92 | the range query over the world: empty for an unknown species name, otherwise exactly the living members within the radius |
| Animals.FirstInRange | backend/models/species/cow.cpp:51-60 | the first member in reach, with no member in reach before it, or none when no member is in reach |
| Animals.FindNearestFood | backend/models/animal.cpp:35-56 | the scan finds nothing iff no living food lies within detection range; otherwise it finds the nearest, and a tie goes to the earlier food type, then the earlier list entry |
| Animals.NearestIsUnique | backend/models/animal.cpp:45-51 | the strict `<` test makes the nearest candidate unique |
| Animals.FoodLists | backend/models/animal.cpp:40-44 | one list per food type, in food_types order; a food type the world lacks contributes nothing |
| Animals.MoveTowardsTarget | backend/models/animal.cpp:58-72 | no move when dead or when the distance is not positive; otherwise the new position is inside the world; only the position changes |
| Animals.IntelligentMove | backend/models/animal.cpp:74-110 | the result is exactly the move IntelligentlyMoved describes: dead means no change; a running cooldown only ticks down; otherwise the animal moves toward the nearest food, or moves randomly when there is none, staying inside the world; only the position and the hunting cooldown change |
| Animals.IntelligentlyMovedIsUnique | backend/models/animal.cpp:74-110 | the described move has one outcome, so IntelligentMove's contract determines its result |
| Animals.StartHuntingCooldown | backend/models/animal.cpp:112-115 | the hunting cooldown restarts at its full duration and nothing else changes |
| Animals.Feed | backend/models/species/cow.cpp:42 | the eater gains the prey's energy but never exceeds its maximum; below the cap the gain is exact |
| Animals.KillAt | backend/models/species/cow.cpp:42-43 | only the eaten member changes: it is dead with reason "Predation by <predator>", and one fewer member is alive |
| Grasses.NewGrass | backend/models/species/grass.cpp:15-18 | energy 40 of maximum 160, lifespan 2000, cost 40, growth 0.9, chance 0.4, radius 30, effect 0.9 |
| Grasses.AliveRows | backend/models/ecosystem.cpp:114-122 | the precomputed rows are exactly the living grasses, with their positions, in list order |
| Grasses.AliveRowsEmpty | backend/models/ecosystem.cpp:114-122 | there are no rows iff no grass is alive |
| Grasses.CountNeighbours | backend/models/species/grass.cpp:54-58 | the counting loop equals the number of rows other than the skipped one within the competition radius |
| Grasses.DensityOf | backend/models/species/grass.cpp:61-62 | the density lies in [0, 1]; it is 0 with no neighbour and positive with one, for a disc of positive area |
| Grasses.SelfRow | backend/models/species/grass.cpp:27-34 | the own row is the first row that refers to the caller, or -1 when there is none |
| Grasses.FindSelfRow | backend/models/species/grass.cpp:27-34 | the search loop with break finds exactly that first row |
| Grasses.OptimizedDensity | backend/models/species/grass.cpp:20-64 | no rows means 0; otherwise the rows within the radius are counted, leaving out the caller's own row only when it is found and other rows exist; the result lies in [0, 1] |
| Grasses.SoleRowCountsItself | backend/models/species/grass.cpp:38-50 | a grass that is the only row is not excluded: it counts itself, and its density is positive |
| Grasses.CountOthers | backend/models/species/grass.cpp:76-81 | the number of other living grasses is zero iff every other grass is dead |
| Grasses.CountOthersNear | backend/models/species/grass.cpp:83-87 | the neighbours counted are among the other living grasses |
| Grasses.FallbackDensity | backend/models/species/grass.cpp:72-91 | density 0 with no grass list, an empty one, or no other living grass; otherwise the count within the radius against the area-per-100 disc; always in [0, 1] |
| Grasses.LocalDensity | backend/models/species/grass.cpp:66-73 | the density a grass sees lies in [0, 1] and is 0 when no grass is alive |
| Grasses.NearbyDensity | backend/models/species/grass.cpp:66-91 | choosing the row-based computation or the fallback gives exactly LocalDensity, since with no rows the fallback finds no other living grass |
| Grasses.GrowthRate | backend/models/species/grass.cpp:93-101 | the rate is at least 1% of the base; an empty neighbourhood doubles the base rate; a non-negative base gives a non-negative rate |
| Grasses.Update | backend/models/species/grass.cpp:103-110 | a grass that died in the base update stays so; a living one gains exactly min(max, energy + GrowthRate(LocalDensity)), and never exceeds its maximum |
| Grasses.CanReproduce | backend/models/species/grass.cpp:112-115 | a grass that passes its test passes the base test, and a chance draw at or above its reproduction chance always fails |
| Grasses.Reproduce | backend/models/species/grass.cpp:117-136 | an offspring exists iff the gated test passes and the clamped target lies strictly inside the world; then the parent pays the cost and waits 10 steps; otherwise it is unchanged |
| Grasses.ReproductionStartsCooldown | backend/models/species/grass.cpp:133-134 | a grass that has just reproduced fails the reproduction test whatever the next chance draw |
| Cows.NewCow | backend/models/species/cow.cpp:14-27 | the positional arguments give energy 400 of maximum 1600, lifespan 4000, cost 400, speed 3, consumption 2, detection 800, food grass, eating range 5 |
| Cows.Graze | backend/models/species/cow.cpp:51-60 | the first living grass in eating range is eaten and killed, with no earlier one in reach; without such a grass nothing changes; dead grass is never touched |
| Cows.GrazeEatsOne | backend/models/species/cow.cpp:51-60 | a cow that finds grass in reach eats exactly one (one fewer alive, "Predation by Cow") and stays within its maximum energy; otherwise nothing changes |
| Cows.EatGrass | backend/models/species/cow.cpp:51-60 | the scan with break over the whole grass list is exactly Graze |
| Cows.FirstAliveOf | backend/models/species/cow.cpp:40-41 | the first listed member that is alive, with none alive before it, or none |
| Cows.FirstAliveOfRange | backend/models/species/cow.cpp:37-46 | over the range query's result, the first living member is the first grass in reach |
| Cows.EatInRange | backend/models/species/cow.cpp:40-46 | the loop over the queried grass eats exactly the first one still alive, or nothing |
| Cows.AfterMove | backend/models/species/cow.cpp:34-48 | only the grass list changes, and keeps its length; a living cow ends alive iff its energy is positive, recording "Starvation" otherwise |
| Cows.Update | backend/models/species/cow.cpp:29-49 | old-age death in the base update ends the turn; otherwise the result is AfterMove of the move IntelligentlyMoved describes, over the cow's food lists; a surviving cow has positive energy and stays in the world |
| Cows.CanReproduce | backend/models/species/cow.cpp:62-65 | a cow that passes its test passes the base test, and no cow aged 20 or less does |
| Cows.Reproduce | backend/models/species/cow.cpp:67-85 | a calf exists iff the cow is eligible (base test, age > 20); the parent pays the cost and waits 200 steps; the calf lands within the world |
| Cows.ReproductionStartsCooldown | backend/models/species/cow.cpp:62-72 | neither the parent nor the calf can reproduce right after a birth |
| Tigers.NewTiger | backend/models/species/tiger.cpp:14-15 | energy 4000 of maximum 16000, lifespan 8000, cost 4000, speed 4, consumption 20, range 6, rate 0.2, detection 1000, food cow, cooldown 4 |
| Tigers.HuntingSuccessRate | backend/models/species/tiger.cpp:20-24 | the rate is 0.2 unless energy is at most a third of the cost; then it lies in [0.2, 0.8], and reaches 0.8 for a newborn |
| Tigers.Rated | backend/models/species/tiger.cpp:20-24 | the update sets only the success rate |
| Tigers.FirstSuccess | backend/models/species/tiger.cpp:37-46 | the first draw below the rate, with every earlier draw failing |
| Tigers.Prey | backend/models/species/tiger.cpp:37-46 | the chosen prey is always a living cow within hunting range |
| Tigers.Hunt | backend/models/species/tiger.cpp:37-46 | the cow list keeps its length; dead cows are never touched; only the tiger's energy and cooldown change, and the cooldown is either unchanged or restarted |
| Tigers.HuntKillsAtMostOne | backend/models/species/tiger.cpp:37-46 | either nothing changes, or exactly one living cow in range is killed, the tiger stays within its maximum energy, and its cooldown is at full duration |
| Tigers.NoPreyNoKill | backend/models/species/tiger.cpp:37-46 | no cow in range, or no draw below the rate, means no kill |
| Tigers.LuckyFirstDraw | backend/models/species/tiger.cpp:37-46 | a successful first draw kills the first cow in range |
| Tigers.PreyIsAt | backend/models/species/tiger.cpp:57-66 | the n-th cow in range is the prey when its draw is the first success |
| Tigers.HuntCows | backend/models/species/tiger.cpp:51-67 | the scan over the whole cow list, one draw per living cow in range, is exactly Hunt |
| Tigers.FirstAliveSuccess | backend/models/species/tiger.cpp:37-46 | the scan over the queried cows picks a living cow |
| Tigers.FirstAliveSuccessOfRange | backend/models/species/tiger.cpp:30-46 | over the range query's result, the scan picks the same cow as FirstSuccess over the cows in range |
| Tigers.HuntByScan | backend/models/species/tiger.cpp:30-46 | Hunt equals the split revision's scan over the range query's result |
| Tigers.HuntInRange | backend/models/species/tiger.cpp:37-46 | the hunting loop kills and eats exactly the cow FirstAliveSuccess picks, restarting the cooldown, or changes nothing |
| Tigers.HuntCowList | backend/models/species/tiger.cpp:30-46 | the query plus the loop is exactly Hunt |
| Tigers.AfterMove | backend/models/species/tiger.cpp:27-48 | only the cow list changes, and keeps its length; a living tiger ends alive iff its energy is positive, recording "Starvation" otherwise |
| Tigers.HuntAndStarve | backend/models/species/tiger.cpp:27-48 | the method computes exactly AfterMove |
| Tigers.Update | backend/models/species/tiger.cpp:17-49 | the rate is set even on a tiger that just died; a dead one does nothing more; for a living one the result is AfterMove of the move IntelligentlyMoved describes, with the hunting draws; it stays in the world, and a surviving one has positive energy |
| Tigers.CanReproduce | backend/models/species/tiger.cpp:69-72 | a tiger that passes its test passes the base test, and no tiger aged 30 or less does |
| Tigers.Reproduce | backend/models/species/tiger.cpp:74-91 | a cub exists iff the tiger is eligible (base test, age > 30); the parent pays the cost and waits 800 steps; the cub lands within the world |
| Tigers.ReproductionStartsCooldown | backend/models/species/tiger.cpp:69-79 | neither the parent nor the cub can reproduce right after a birth |
| Monolithic.BaseUpdate | backend/models/species.cpp:12-15 | this revision's base update only decays the cooldown; it never ages or kills |
| Monolithic.SnapshotFoodLists | backend/models/species.cpp:68-73 | "grass", "cow" and "tiger" reach the snapshot's lists; any other food type is skipped |
| Monolithic.OptimizedDensity | backend/models/species.cpp:128-158 | the caller's own row is always left out when found; with nothing left the density is 0; the result lies in [0, 1] |
| Monolithic.SoleRowExcluded | backend/models/species.cpp:142-147 | unlike the split revision, a grass that is the only row sees no other row |
| Monolithic.SnapshotDensity | backend/models/species.cpp:160-184 | the density lies in [0, 1]; it is 0 when nothing remains besides the caller |
| Monolithic.Density | backend/models/species.cpp:160-184 | the row path or the fallback over the live grass list gives exactly SnapshotDensity |
| Monolithic.GrassUpdate | backend/models/species.cpp:195-202 | the result is the one GrassUpdated describes: a dead grass is untouched; a living one has its cooldown decayed, gains exactly min(max, energy + GrowthRate(SnapshotDensity)) and then ages one step, surviving iff age + 1 < max_age, else recording "Old age"; nothing else changes |
| Monolithic.CowAfterMove | backend/models/species.cpp:237-246 | the grass list keeps its length and dead grass is untouched; the cow ages by one; old age wins over starvation as the recorded reason |
| Monolithic.CowUpdate | backend/models/species.cpp:233-247 | the result is the one CowUpdated describes: a dead cow and the grass are untouched; a living one makes the move IntelligentlyMoved describes over the snapshot's food lists, and then CowAfterMove applies; it ages by one, a survivor has positive energy, and it stays in the world |
| Monolithic.CowUpdatedIsUnique | backend/models/species.cpp:233-247 | a cow's update has one outcome for the cow and the grass list |
| Monolithic.TigerAfterMove | backend/models/species.cpp:294-303 | the cow list keeps its length and dead cows are untouched; the tiger ages by one; old age is recorded before starvation |
| Monolithic.TigerUpdate | backend/models/species.cpp:285-304 | the result is the one TigerUpdated describes: the success rate is set even on a dead tiger, which changes nothing else; a living one makes the move IntelligentlyMoved describes, and then TigerAfterMove applies; it ages by one and stays in the world |
| Monolithic.TigerUpdatedIsUnique | backend/models/species.cpp:285-304 | a tiger's update has one outcome for the tiger and the cow list |
| Registry.TypeOfName | backend/models/ecosystem.cpp:147 | "grass" and "cow" map to their types; any other name counts as a tiger |
| Registry.TotalOf | backend/models/ecosystem.cpp:70-74 | the accumulated total is at least the size of every species' list it covers |
| Registry.SpeciesStatistics.constructor | backend/models/ecosystem.cpp:7-11 | all three counters start at zero |
| Registry.SpeciesStatistics.Increment | backend/models/ecosystem.cpp:12-14 | the counter grows by the amount, and a missing key starts from zero |
| Registry.SpeciesStatistics.SetCount | backend/models/ecosystem.cpp:15-17 | only that counter changes |
| Registry.SpeciesStatistics.GetCount | backend/models/ecosystem.cpp:18-21 | the stored count, or zero for a missing key |
| Registry.SpeciesStatistics.Reset | backend/models/ecosystem.cpp:22-24 | every present counter becomes zero, and no key is added or removed |
| Registry.TotalZeroIffAllEmpty | backend/models/ecosystem.cpp:70-74 | the total is zero iff every species' list is empty |
| Registry.TotalAfterAdd | backend/models/ecosystem.cpp:53-55 | adding one individual raises the total by exactly one |
| Registry.Swept | backend/models/ecosystem.cpp:63-65 | a whole-registry pass keeps each entry's name and initial count, and empties its list or keeps only the living |
| Registry.SpeciesRegistry.constructor | backend/models/ecosystem.cpp:33-37 | the registry holds exactly grass, cow and tiger, each with an empty list and its configured initial count, in key order cow, grass, tiger |
| Registry.SpeciesRegistry.AddKey | backend/models/ecosystem.cpp:39 | operator[] on a missing key adds it to the key order, keeping the order sorted |
| Registry.SpeciesRegistry.RegisterSpecies | backend/models/ecosystem.cpp:38-40 | (re)creates the entry with an empty list and the given count; other entries are untouched |
| Registry.SpeciesRegistry.GetSpeciesList | backend/models/ecosystem.cpp:41-43 | returns the list for the name; an unknown name gets a default empty entry |
| Registry.SpeciesRegistry.GetInitialCount | backend/models/ecosystem.cpp:44-47 | the registered initial count, or zero for an unknown name |
| Registry.SpeciesRegistry.GetAllSpeciesNames | backend/models/ecosystem.cpp:48-52 | every registered name, once each, in ascending key order |
| Registry.SpeciesRegistry.AddIndividual | backend/models/ecosystem.cpp:53-55 | the individual is appended to that species' list only |
| Registry.SpeciesRegistry.ExtendIndividuals | backend/models/ecosystem.cpp:56-59 | the new individuals follow the existing members, in order |
| Registry.SpeciesRegistry.ClearSpecies | backend/models/ecosystem.cpp:60-62 | only that species' list is emptied |
| Registry.SpeciesRegistry.ClearAll | backend/models/ecosystem.cpp:63-65 | every list is emptied; names and initial counts stay and no key changes |
| Registry.SpeciesRegistry.GetSpeciesCount | backend/models/ecosystem.cpp:66-69 | the list length, or zero for an unknown name |
| Registry.SpeciesRegistry.GetTotalCount | backend/models/ecosystem.cpp:70-74 | the sum of all list sizes, which is zero iff every list is empty |
| Registry.SpeciesRegistry.FilterAlive | backend/models/ecosystem.cpp:75-79 | only that species' list loses its dead, keeping the living in order |
| Registry.SpeciesRegistry.FilterAllAlive | backend/models/ecosystem.cpp:80-82 | every list keeps exactly its living members in order, and no key changes |
| Ecosystem.NewOfName | backend/models/ecosystem.cpp:96-99 | the constructor chosen by name makes a fresh living individual of that species at the position |
| Ecosystem.SpawnPosition | backend/models/ecosystem.cpp:94-95 | for a non-zero side, the rand() % side coordinates are whole numbers in [0, abs(side)), so inside the world when both sides are positive |
| Ecosystem.Spawned | backend/models/ecosystem.cpp:92-101 | seeding creates exactly initial_count individuals of the species (none for a negative count), the i-th at the position its draws give |
| Ecosystem.SeededAtStart | backend/models/ecosystem.cpp:85-103 | seeding the registry a configuration creates leaves exactly grass, cow and tiger, each holding its configured count of spawned individuals |
| Ecosystem.Reseeded | backend/models/ecosystem.cpp:213-217 | clearing and then seeding leaves every species exactly its spawned individuals for the registry's initial count |
| Ecosystem.MemberUpdatedIsUnique | backend/models/ecosystem.cpp:129-131 | one member's turn of update_species has one outcome |
| Ecosystem.RanNext | backend/models/ecosystem.cpp:127-131 | a run of member updates followed by one more turn is the run over the longer turn sequence |
| Ecosystem.RanIsUnique | backend/models/ecosystem.cpp:126-133 | a run over a sequence of turns has one outcome, so UpdateSpecies's contract determines the new registry |
| Ecosystem.BreedOne | backend/models/ecosystem.cpp:140-145 | a dead or ineligible member yields nothing and stays unchanged; an offspring is a living newborn of the list's own species, inside the world, and its parent still holds the cost |
| Ecosystem.Breed | backend/models/ecosystem.cpp:139-145 | the pass keeps one parent per member and yields at most one offspring per member |
| Ecosystem.BreedParents | backend/models/ecosystem.cpp:140-145 | each parent ends the pass as its own turn left it |
| Ecosystem.BreedNewborns | backend/models/ecosystem.cpp:140-145 | every offspring of a pass is a newborn of the list's species, inside the world |
| Ecosystem.BreedAllDead | backend/models/ecosystem.cpp:141 | a list with no living member yields no offspring |
| Ecosystem.Recorded | backend/models/ecosystem.cpp:159-161 | the history keeps the newest min(length + 1, 100) snapshots in chronological order, ending with the new one |
| Ecosystem.Project | backend/models/ecosystem.cpp:195-202 | each reported record copies the position, energy, age, alive flag and maximum energy of its individual |
| Ecosystem.EcosystemState.constructor | backend/models/ecosystem.cpp:85-88 | a new state holds the configuration, time step 0, zero counters, an empty history, and each species seeded with its configured count; any world size is accepted unless a positive count would need `% 0` |
| Ecosystem.EcosystemState.SpawnOne | backend/models/ecosystem.cpp:94-100 | the species named gains exactly one new individual of its kind, appended at the position its two draws give; nothing else changes |
| Ecosystem.EcosystemState.SpawnSpecies | backend/models/ecosystem.cpp:92-101 | one species' seeding loop appends exactly its Spawned individuals |
| Ecosystem.EcosystemState.InitializePopulations | backend/models/ecosystem.cpp:90-103 | every registered species gains its initial individuals; no key changes |
| Ecosystem.EcosystemState.GetEcosystemState | backend/models/ecosystem.cpp:105-124 | the snapshot copies the world size, the time step and the rows of the living grass; a missing species fails like std::map::at |
| Ecosystem.EcosystemState.BreedList | backend/models/ecosystem.cpp:140-145 | the loop over one list computes exactly the pass Breed describes: each member's turn in order, offspring collected in member order |
| Ecosystem.EcosystemState.UpdateAt | backend/models/ecosystem.cpp:129-131 | the new registry is the turn MemberUpdated describes for that member, dispatched on the list's name |
| Ecosystem.EcosystemState.UpdateGrassAt | backend/models/ecosystem.cpp:129-131 | only that grass is rewritten, with the update GrassUpdated describes over the live lists |
| Ecosystem.EcosystemState.UpdateCowAt | backend/models/ecosystem.cpp:129-131 | the grass list becomes the one the cow's update leaves and the cow is rewritten, as CowUpdated describes over the live lists |
| Ecosystem.EcosystemState.UpdateTigerAt | backend/models/ecosystem.cpp:129-131 | the cow list becomes the one the tiger's hunt leaves and the tiger is rewritten, as TigerUpdated describes over the live lists |
| Ecosystem.EcosystemState.UpdateMembers | backend/models/ecosystem.cpp:128-131 | the members of one species take their turns in list order, extending the run so far |
| Ecosystem.EcosystemState.UpdateSpecies | backend/models/ecosystem.cpp:126-133 | the new registry is the run of every member's turn, species in key order and members in list order, each reading the registry as the turns before it left it, so kills are visible to later members; species and list sizes stay, and a dead member stays dead and unchanged apart from a tiger's rate |
| Ecosystem.EcosystemState.BreedSpecies | backend/models/ecosystem.cpp:137-148 | one species' parents are updated in place, its offspring follow them, and its birth counter grows by their number |
| Ecosystem.EcosystemState.BreedInRegistry | backend/models/ecosystem.cpp:138-146 | the species' entry becomes its bred entry and the returned number is its offspring count |
| Ecosystem.EcosystemState.HandleReproduction | backend/models/ecosystem.cpp:135-154 | every species is replaced by its bred entry, and its birth counter grows by its offspring count |
| Ecosystem.EcosystemState.GetSpeciesCounts | backend/models/ecosystem.cpp:178-186 | the counts are the current list sizes of the three species, dead members included |
| Ecosystem.EcosystemState.UpdateStatistics | backend/models/ecosystem.cpp:156-162 | the history gains the current counts and never exceeds 100 entries |
| Ecosystem.EcosystemState.CleanupSpecies | backend/models/ecosystem.cpp:165-171 | one species' dead go into its death counter and are removed |
| Ecosystem.EcosystemState.CleanupDead | backend/models/ecosystem.cpp:164-176 | every species keeps exactly its living members in order; each death counter grows by that species' dead; survivors plus dead equal the old size |
| Ecosystem.EcosystemState.AliveData | backend/models/ecosystem.cpp:191-204 | the data of exactly the living members, in list order |
| Ecosystem.EcosystemState.GetSpeciesData | backend/models/ecosystem.cpp:188-208 | one entry per species, holding the data of its living members in list order |
| Ecosystem.EcosystemState.Reset | backend/models/ecosystem.cpp:210-218 | the new world size applies; time step 0, zero counters, empty history; each species is reseeded from the registry's initial counts |
| Ecosystem.EcosystemState.ResetCounters | backend/models/ecosystem.cpp:214-215 | both counters return to zero for the three species |
| Ecosystem.EcosystemState.CheckExtinction | backend/models/ecosystem.cpp:220-227 | exactly the species with an empty list, each once, in key order |
| Factory.SpeciesFactory.constructor | backend/models/species_factory.cpp:10 | a factory starts with no creator registered |
| Factory.SpeciesFactory.Create | backend/models/species_factory.cpp:18-24 | succeeds iff the name is registered, returning that creator's individual; otherwise it fails with "Unknown species name: " + name |
| Factory.SpeciesFactory.IsRegistered | backend/models/species_factory.cpp:36-38 | in a well-formed factory, a name has a creator iff it is among the listed names |
| Factory.SpeciesFactory.RegisterSpecies | backend/models/species_factory.cpp:13-15 | the name becomes registered and creates with the new creator, replacing any earlier one; every other name creates as before |
| Factory.SpeciesFactory.GetAllSpeciesNames | backend/models/species_factory.cpp:27-33 | exactly the registered names, once each, in ascending order |
| Factory.SpeciesFactory.Clear | backend/models/species_factory.cpp:41-43 | afterwards no name is registered |
| Factory.RegisterAllSpecies | backend/models/species_factory.cpp:46-61 | afterwards "grass", "cow" and "tiger" create a new grass, cow and tiger at the given position |

## Left out

- Floating point: positions, energies and rates are real numbers. Rounding, NaN and infinity are not modelled.
- The math library (`sqrt`, `pow`, `cos`, `sin`, `M_PI`) is uninterpreted. Facts that depend on its values are stated under a hypothesis, such as `math.pi > 0.0`.
- Geometry.Within: compares squared distances with squared radii instead of taking `std::sqrt`. The two agree for a true square root, and no distance is within a negative radius.
- Randomness: `rand()`, `std::random_device` and the static `mt19937` engines become parameters. `uniform_real_distribution(lo, hi)` is modelled from a unit draw. The model states no distribution.
- Individuals.MoveRandomly: the heading is a parameter. The model does not restrict it to [0, 2π), and nothing depends on that range.
- Integers are unbounded. The model does not represent `int` overflow (the total count, the counters, `age`) or the `size_t` to `int` conversions.
- Pointer identity:
  - Shared and unique pointers become list indices and values.
  - The `this` comparison in the density code becomes a comparison of list indices.
  - `reinterpret_cast` ids in the detail snapshot are left out, and `IndividualData` has no id field.
- Seeding with a zero world side: `rand() % 0` is undefined behaviour in C++. The constructor, Ecosystem.EcosystemState.SpawnSpecies, Ecosystem.EcosystemState.InitializePopulations and Ecosystem.EcosystemState.Reset require a non-zero side only for a species with a positive initial count, the only case in which the source divides. A negative side is modelled, and its positions lie in [0, |side|).
- Seeding an unregistered name: for a name other than grass, cow or tiger the source appends a null pointer. The model's registry only ever holds those three names, so Ecosystem.Spawned and Ecosystem.EcosystemState.SpawnOne require one of them.
- Ecosystem.EcosystemState.UpdateSpecies: dispatches on the list name to the single-file revision's updates. It does not model C++ virtual dispatch, and it does not model the `dynamic_cast` filters in `species.cpp`, lines 239-243 and 296-300. Every list holds only individuals made by its own species' constructor, so those filters never drop anything.
- The per-tick `EcosystemStateData` of the split revision is passed as the live species map. Kills are therefore seen by every later reader, as the shared pointers make them.
- The Eigen matrix of grass positions becomes a sequence of rows.
- `std::cout` messages in `handle_reproduction` and `cleanup_dead` are left out, as they are output only.
- Property accessors `grass()`, `set_grass()` and their cow and tiger counterparts (ecosystem.cpp:25-30) are one-line calls to `GetCount` and `SetCount`. They are not modelled separately.
- `SpeciesRegistry::register_species`: its unused prototype argument is dropped.
- The const overload of `get_species_list` is declared in ecosystem.h:84 but has no definition in the source. It is not part of this model.
- `get_species_in_range` is called by the split revision but not defined in the repository. Animals.InRangeIndices models it as the filter the single-file revision writes inline: living members whose distance is at most the radius, in list order.
- The global `g_species_factory` becomes the parameter of Factory.RegisterAllSpecies. The factory is not used by the engine, and its creators are Dafny functions rather than C++ lambdas.
- `species_type_from_name`, `name_from_species_type`, the Qt front end (`Widget`, `TestBackend`, `main.cpp`) and the species headers are not part of this model. The headers hold declarations only.
- Time: no function in the core advances `time_step`, and the core has no tick driver. The model has neither.
- Tigers.HuntingSuccessRate: with `max_age == 0` the source divides by zero in double arithmetic. The model answers 0.2 in that case.
- Grasses.DensityOf: with a zero-area disc the source's division gives infinity or NaN, and `std::min` answers 1.0. The model takes that branch explicitly.

## Notes on the source

These are places where the code does something other than what its own comments or design text say. The model follows the code in each case.

- **Reset keeps the old initial counts.** `EcosystemState::reset` (ecosystem.cpp:210-218) applies the new configuration's world size. It does not re-register the species, though, so reseeding uses the initial counts the registry got at construction, not those of the new configuration.
- **Unknown names are created, not rejected.** An unknown species name passed to a registry accessor that uses `operator[]` silently creates an empty entry. Only `get_ecosystem_state` (via `std::map::at`) and the factory's `create` fail on an unknown name.
- **Grass reproduction tests the clamped target.** Grass reproduction (grass.cpp:129-131) clamps the target first and then rejects a target on the world's edge. It does not test the unclamped target.
- **Hunting cooldown stops only movement.** A running hunting cooldown stops the move but not the feeding: a cow still grazes and a tiger still hunts while it stands still.
- **Energy can go negative.** Energy is not clamped at 0. A consumer whose energy is no longer positive dies of starvation with that energy.
- **Self-counting differs between revisions.** In the split revision a grass that is the only living one counts itself in its own density (grass.cpp:38). The single-file revision always leaves its own row out.
- **The cow constructor's comments are misaligned.** The comments on `Cow`'s constructor arguments (cow.cpp:15-25) do not match the parameters they are passed to. For example, "4000" is commented as the maximum energy but is `max_age`, and "800" is commented as the lifespan but is `detection_range`. The model follows the positional meaning.
