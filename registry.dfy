/**
 * The bookkeeping half of ecosystem.cpp: per-species counters
 * (SpeciesStatistics), the name-indexed registry that owns every species'
 * list of individuals (SpeciesRegistry), and the configuration record that
 * seeds it (EcosystemConfig, declared in ecosystem.h).
 *
 * std::map<std::string, _> is modelled as a Dafny map plus an `order`
 * field holding its keys in ascending KeyOrder.Less order, because the
 * engine's phases visit species in that order.  Every operation that goes
 * through std::map::operator[] creates a missing entry with a
 * value-initialised SpeciesInfo (empty name, empty list, count 0); the
 * model does the same.
 */
module Registry {
  import opened KeyOrder
  import opened Individuals

  /** SpeciesType of ecosystem.h. */
  datatype SpeciesType = GrassType | CowType | TigerType

  /** The name-to-type mapping the phase methods write inline: a name that is neither "grass" nor "cow" counts as a tiger. */
  function TypeOfName(name: string): (t: SpeciesType)
    ensures t == GrassType <==> name == "grass"
    ensures t == CowType <==> name == "cow"
    ensures t == TigerType <==> name != "grass" && name != "cow"
  {
    if name == "grass" then GrassType else if name == "cow" then CowType else TigerType
  }

  /** Lookup in a counter map, zero for a missing key (std::map::find). */
  function CountIn(m: map<SpeciesType, int>, t: SpeciesType): int
  {
    if t in m then m[t] else 0
  }

  /** A counter map holding all three species at zero. */
  const ZeroCounts: map<SpeciesType, int> := map[GrassType := 0, CowType := 0, TigerType := 0]

  /** Counts per species type (births, deaths and population snapshots). */
  class SpeciesStatistics {
    var statistics: map<SpeciesType, int>

    constructor()
      ensures statistics == ZeroCounts
    {
      statistics := ZeroCounts;
    }

    /** operator[] then +=: a missing key starts at zero. */
    method Increment(t: SpeciesType, count: int)
      modifies this
      ensures statistics == old(statistics)[t := CountIn(old(statistics), t) + count]
      ensures t in old(statistics) ==> statistics.Keys == old(statistics).Keys
    {
      statistics := statistics[t := CountIn(statistics, t) + count];
    }

    method SetCount(t: SpeciesType, count: int)
      modifies this
      ensures statistics == old(statistics)[t := count]
      ensures t in old(statistics) ==> statistics.Keys == old(statistics).Keys
    {
      statistics := statistics[t := count];
    }

    function GetCount(t: SpeciesType): (n: int)
      reads this
      ensures t in statistics ==> n == statistics[t]
      ensures t !in statistics ==> n == 0
    {
      CountIn(statistics, t)
    }

    /** Zeroes every present counter; adds no key. */
    method Reset()
      modifies this
      ensures statistics.Keys == old(statistics).Keys
      ensures forall t :: t in statistics ==> statistics[t] == 0
    {
      var pending := statistics.Keys;
      while pending != {}
        invariant pending <= statistics.Keys
        invariant statistics.Keys == old(statistics).Keys
        invariant forall t :: t in statistics && t !in pending ==> statistics[t] == 0
        decreases |pending|
      {
        var t :| t in pending;
        statistics := statistics[t := 0];
        pending := pending - {t};
      }
    }
  }

  /** SpeciesRegistry::SpeciesInfo. */
  datatype SpeciesInfo = SpeciesInfo(name: string, list: seq<Individual>, initialCount: int)

  /** The value-initialised SpeciesInfo that std::map::operator[] inserts. */
  const DefaultInfo: SpeciesInfo := SpeciesInfo("", [], 0)

  /** EcosystemConfig of ecosystem.h. */
  datatype EcosystemConfig = EcosystemConfig(worldWidth: int, worldHeight: int, initialGrass: int, initialCows: int, initialTigers: int)

  /** The defaults of EcosystemConfig's constructor. */
  const DefaultConfig: EcosystemConfig := EcosystemConfig(800, 600, 100, 10, 1)

  /** The sum of list sizes over `names` (the accumulation of get_total_count). */
  function TotalOf(registry: map<string, SpeciesInfo>, names: seq<string>): (sum: nat)
    requires forall n :: n in names ==> n in registry
    ensures forall i :: 0 <= i < |names| ==> |registry[names[i]].list| <= sum
    decreases |names|
  {
    if names == [] then 0
    else
      var k := |names| - 1;
      TotalOf(registry, names[..k]) + |registry[names[k]].list|
  }

  /** The total is zero exactly when every listed species is empty. */
  lemma {:induction false} TotalZeroIffAllEmpty(registry: map<string, SpeciesInfo>, names: seq<string>)
    requires forall n :: n in names ==> n in registry
    ensures TotalOf(registry, names) == 0 <==> forall i :: 0 <= i < |names| ==> |registry[names[i]].list| == 0
    decreases |names|
  {
    if names != [] {
      var k := |names| - 1;
      assert forall n :: n in names[..k] ==> n in names;
      assert forall i :: 0 <= i < k ==> names[..k][i] == names[i];
      TotalZeroIffAllEmpty(registry, names[..k]);
    }
  }

  /** Adding one individual to a species that occurs once in `names` raises the total by one. */
  lemma {:induction false} TotalAfterAdd(registry: map<string, SpeciesInfo>, names: seq<string>, name: string, ind: Individual)
    requires forall n :: n in names ==> n in registry
    requires name in registry
    requires forall i, j :: 0 <= i < j < |names| ==> names[i] != names[j]
    ensures var after := registry[name := registry[name].(list := registry[name].list + [ind])];
      TotalOf(after, names) == TotalOf(registry, names) + (if name in names then 1 else 0)
    decreases |names|
  {
    var after := registry[name := registry[name].(list := registry[name].list + [ind])];
    if names != [] {
      var k := |names| - 1;
      assert forall n :: n in names[..k] ==> n in names;
      assert forall i :: 0 <= i < k ==> names[..k][i] == names[i];
      TotalAfterAdd(registry, names[..k], name, ind);
      assert name in names <==> name in names[..k] || name == names[k] by {
        assert names == names[..k] + [names[k]];
      }
      if name == names[k] {
        assert name !in names[..k];
      }
    }
  }

  /** `order` lists the keys of `m`, each once, ascending. */
  ghost predicate KeysInOrder(m: map<string, SpeciesInfo>, order: seq<string>)
  {
    Sorted(order) && forall n :: n in order <==> n in m
  }

  /** Overwriting the entry of a present key keeps the key order. */
  lemma KeysInOrderWrite(m: map<string, SpeciesInfo>, order: seq<string>, n: string, info: SpeciesInfo)
    requires KeysInOrder(m, order) && n in m
    ensures KeysInOrder(m[n := info], order)
  {
  }

  /** Overwriting the entry of a present key keeps the key set. */
  lemma KeysWrite(m: map<string, SpeciesInfo>, n: string, info: SpeciesInfo)
    requires n in m
    ensures m[n := info].Keys == m.Keys
  {
  }

  /** The two whole-registry passes: empty every list, or keep only the living. */
  datatype Sweep = Clearing | Filtering

  /** The entry one sweep leaves behind. */
  function Swept(s: Sweep, info: SpeciesInfo): (r: SpeciesInfo)
    ensures r.name == info.name && r.initialCount == info.initialCount
    ensures s.Clearing? ==> r.list == []
    ensures s.Filtering? ==> r.list == AliveOnly(info.list)
  {
    match s
    case Clearing => info.(list := [])
    case Filtering => info.(list := AliveOnly(info.list))
  }

  /** The first `i` keys of `order` have been swept, the rest are untouched. */
  ghost predicate SweptUpTo(s: Sweep, r0: map<string, SpeciesInfo>, cur: map<string, SpeciesInfo>, order: seq<string>, i: nat)
  {
    i <= |order| && KeysInOrder(cur, order) && cur.Keys == r0.Keys
    && (forall j :: 0 <= j < i ==> cur[order[j]] == Swept(s, r0[order[j]]))
    && (forall j :: i <= j < |order| ==> cur[order[j]] == r0[order[j]])
  }

  /** Sweeping the next key extends the swept prefix by one. */
  lemma SweepStep(s: Sweep, r0: map<string, SpeciesInfo>, cur: map<string, SpeciesInfo>, order: seq<string>, i: nat)
    requires SweptUpTo(s, r0, cur, order, i) && i < |order|
    ensures SweptUpTo(s, r0, cur[order[i] := Swept(s, cur[order[i]])], order, i + 1)
  {
    SortedIsDistinct(order);
    var n := order[i];
    var next := cur[n := Swept(s, cur[n])];
    KeysInOrderWrite(cur, order, n, Swept(s, cur[n]));
    KeysWrite(cur, n, Swept(s, cur[n]));
    assert forall j :: 0 <= j < |order| && j != i ==> next[order[j]] == cur[order[j]];
  }

  /** Once every key is swept, every entry is. */
  lemma SweepDone(s: Sweep, r0: map<string, SpeciesInfo>, cur: map<string, SpeciesInfo>, order: seq<string>)
    requires SweptUpTo(s, r0, cur, order, |order|)
    ensures forall n :: n in cur ==> cur[n] == Swept(s, r0[n])
  {
    forall n | n in cur
      ensures cur[n] == Swept(s, r0[n])
    {
      var j :| 0 <= j < |order| && order[j] == n;
    }
  }

  /** The registry: species name to its list of individuals and initial count. */
  class SpeciesRegistry {
    var registry: map<string, SpeciesInfo>
    /** The keys of `registry` in the map's iteration order. */
    var order: seq<string>

    ghost predicate Valid()
      reads this
    {
      KeysInOrder(registry, order)
    }

    /** The entry operator[] yields for `name`. */
    function Info(name: string): SpeciesInfo
      reads this
    {
      if name in registry then registry[name] else DefaultInfo
    }

    /** Registers grass, cow and tiger with the configured initial counts and empty lists. */
    constructor(config: EcosystemConfig)
      ensures Valid()
      ensures registry == map["grass" := SpeciesInfo("grass", [], config.initialGrass),
                              "cow" := SpeciesInfo("cow", [], config.initialCows),
                              "tiger" := SpeciesInfo("tiger", [], config.initialTigers)]
      ensures order == ["cow", "grass", "tiger"]
    {
      registry := map[];
      order := [];
      new;
      SpeciesInsertions();
      RegisterSpecies("grass", config.initialGrass);
      RegisterSpecies("cow", config.initialCows);
      RegisterSpecies("tiger", config.initialTigers);
    }

    /** std::map's operator[] on a missing key: the key joins the order (its entry follows). */
    method AddKey(name: string)
      modifies this
      ensures registry == old(registry)
      ensures order == if name in old(registry) then old(order) else Insert(old(order), name)
      ensures old(Valid()) ==> Sorted(order) && forall n :: n in order <==> n in registry || n == name
    {
      if name !in registry {
        if Valid() {
          InsertSorted(order, name);
        }
        order := Insert(order, name);
      }
    }

    /** (Re)creates the entry with an empty list; the prototype argument of the source is unused there. */
    method RegisterSpecies(name: string, initialCount: int)
      modifies this
      ensures registry == old(registry)[name := SpeciesInfo(name, [], initialCount)]
      ensures order == if name in old(registry) then old(order) else Insert(old(order), name)
      ensures name in old(registry) ==> registry.Keys == old(registry).Keys
      ensures old(Valid()) ==> Valid()
    {
      AddKey(name);
      registry := registry[name := SpeciesInfo(name, [], initialCount)];
    }

    /** The list of `name`, creating a default entry when the name is unknown. */
    method GetSpeciesList(name: string) returns (list: seq<Individual>)
      modifies this
      ensures list == old(Info(name)).list
      ensures registry == old(registry)[name := old(Info(name))]
      ensures name in old(registry) ==> registry == old(registry)
      ensures order == if name in old(registry) then old(order) else Insert(old(order), name)
      ensures name in old(registry) ==> registry.Keys == old(registry).Keys
      ensures old(Valid()) ==> Valid()
    {
      var info := Info(name);
      AddKey(name);
      if name !in registry {
        registry := registry[name := info];
      }
      list := info.list;
    }

    function GetInitialCount(name: string): (n: int)
      reads this
      ensures name in registry ==> n == registry[name].initialCount
      ensures name !in registry ==> n == 0
    {
      if name in registry then registry[name].initialCount else 0
    }

    /** Every registered name, once each, in ascending order. */
    method GetAllSpeciesNames() returns (names: seq<string>)
      ensures names == order
      ensures Valid() ==> Sorted(names) && forall n :: n in names <==> n in registry
    {
      names := [];
      var i := 0;
      while i < |order|
        invariant 0 <= i <= |order|
        invariant names == order[..i]
      {
        names := names + [order[i]];
        i := i + 1;
      }
      assert order[..|order|] == order;
    }

    method AddIndividual(name: string, ind: Individual)
      modifies this
      ensures registry == old(registry)[name := old(Info(name)).(list := old(Info(name)).list + [ind])]
      ensures order == if name in old(registry) then old(order) else Insert(old(order), name)
      ensures name in old(registry) ==> registry.Keys == old(registry).Keys
      ensures old(Valid()) ==> Valid()
    {
      var info := Info(name);
      AddKey(name);
      registry := registry[name := info.(list := info.list + [ind])];
    }

    /** Appends `inds` after the existing members, in order. */
    method ExtendIndividuals(name: string, inds: seq<Individual>)
      modifies this
      ensures registry == old(registry)[name := old(Info(name)).(list := old(Info(name)).list + inds)]
      ensures order == if name in old(registry) then old(order) else Insert(old(order), name)
      ensures name in old(registry) ==> registry.Keys == old(registry).Keys
      ensures old(Valid()) ==> Valid()
    {
      var info := Info(name);
      AddKey(name);
      registry := registry[name := info.(list := info.list + inds)];
    }

    method ClearSpecies(name: string)
      modifies this
      ensures registry == old(registry)[name := old(Info(name)).(list := [])]
      ensures order == if name in old(registry) then old(order) else Insert(old(order), name)
      ensures name in old(registry) ==> registry.Keys == old(registry).Keys
      ensures old(Valid()) ==> Valid()
    {
      var info := Info(name);
      AddKey(name);
      registry := registry[name := info.(list := [])];
    }

    /** Empties every list; names and initial counts stay. */
    method ClearAll()
      requires Valid()
      modifies this
      ensures Valid() && order == old(order)
      ensures registry.Keys == old(registry).Keys
      ensures forall n :: n in registry ==> registry[n] == old(registry)[n].(list := [])
    {
      var i := 0;
      while i < |order|
        invariant order == old(order)
        invariant SweptUpTo(Clearing, old(registry), registry, order, i)
      {
        SweepStep(Clearing, old(registry), registry, order, i);
        registry := registry[order[i] := Swept(Clearing, registry[order[i]])];
        i := i + 1;
      }
      SweepDone(Clearing, old(registry), registry, order);
    }

    function GetSpeciesCount(name: string): (n: nat)
      reads this
      ensures name in registry ==> n == |registry[name].list|
      ensures name !in registry ==> n == 0
    {
      if name in registry then |registry[name].list| else 0
    }

    /** The number of individuals, dead or alive, over all species. */
    method GetTotalCount() returns (sum: int)
      requires Valid()
      ensures sum == TotalOf(registry, order)
      ensures sum == 0 <==> forall n :: n in registry ==> |registry[n].list| == 0
    {
      sum := 0;
      var i := 0;
      while i < |order|
        invariant 0 <= i <= |order|
        invariant forall n :: n in order[..i] ==> n in registry
        invariant sum == TotalOf(registry, order[..i])
      {
        assert order[..i + 1][..i] == order[..i];
        sum := sum + |registry[order[i]].list|;
        i := i + 1;
      }
      assert order[..|order|] == order;
      TotalZeroIffAllEmpty(registry, order);
      assert forall n :: n in registry ==> exists j :: 0 <= j < |order| && order[j] == n;
    }

    /** Drops the dead of `name`, keeping the living in order. */
    method FilterAlive(name: string)
      modifies this
      ensures registry == old(registry)[name := old(Info(name)).(list := AliveOnly(old(Info(name)).list))]
      ensures order == if name in old(registry) then old(order) else Insert(old(order), name)
      ensures name in old(registry) ==> registry.Keys == old(registry).Keys
      ensures old(Valid()) ==> Valid()
    {
      var info := Info(name);
      AddKey(name);
      registry := registry[name := info.(list := AliveOnly(info.list))];
    }

    method FilterAllAlive()
      requires Valid()
      modifies this
      ensures Valid() && order == old(order)
      ensures registry.Keys == old(registry).Keys
      ensures forall n :: n in registry ==> registry[n] == old(registry)[n].(list := AliveOnly(old(registry)[n].list))
    {
      var i := 0;
      while i < |order|
        invariant order == old(order)
        invariant SweptUpTo(Filtering, old(registry), registry, order, i)
      {
        SweepStep(Filtering, old(registry), registry, order, i);
        registry := registry[order[i] := Swept(Filtering, registry[order[i]])];
        i := i + 1;
      }
      SweepDone(Filtering, old(registry), registry, order);
    }
  }
}
