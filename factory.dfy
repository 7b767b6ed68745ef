/**
 * species_factory.cpp: a registry of creator functions keyed by species
 * name. A creator turns a position into a new individual; `Create` looks the
 * name up and fails with the source's invalid_argument message when it is
 * unknown. As with the ecosystem's registry, the std::map is a Dafny map plus
 * its keys in ascending order, which is the order `GetAllSpeciesNames`
 * returns them in.
 */
module Factory {
  import opened KeyOrder
  import opened Wrappers
  import opened Geometry
  import opened Individuals
  import opened Grasses
  import opened Cows
  import opened Tigers

  /** SpeciesFactory::Creator. */
  type Creator = Position -> Individual

  /** The message `create` throws for an unknown name. */
  function UnknownSpecies(name: string): string
  {
    "Unknown species name: " + name
  }

  class SpeciesFactory {
    var creators: map<string, Creator>
    /** The keys of `creators` in the map's iteration order. */
    var order: seq<string>

    ghost predicate Valid()
      reads this
    {
      Sorted(order) && forall n :: n in order <==> n in creators
    }

    /** A factory with nothing registered. */
    constructor()
      ensures Valid()
      ensures creators == map[] && order == []
    {
      creators := map[];
      order := [];
    }

    /** Whether `name` has a creator; in a well-formed factory, whether it is among the listed names. */
    predicate IsRegistered(name: string): (b: bool)
      reads this
      ensures Valid() ==> (b <==> name in order)
    {
      name in creators
    }

    /** The newest creator registered for `name` applied to `pos`, or the unknown-name failure. */
    function Create(name: string, pos: Position): (r: Result<Individual, string>)
      reads this
      ensures r.Success? <==> IsRegistered(name)
      ensures r.Failure? ==> r.error == UnknownSpecies(name)
      ensures r.Success? ==> r.value == creators[name](pos)
    {
      if name in creators then Success(creators[name](pos)) else Failure(UnknownSpecies(name))
    }

    /** Registers `creator` under `name`, replacing any earlier one; no other name changes. */
    method RegisterSpecies(name: string, creator: Creator)
      requires Valid()
      modifies this
      ensures Valid()
      ensures creators == old(creators)[name := creator]
      ensures order == if name in old(creators) then old(order) else Insert(old(order), name)
      ensures IsRegistered(name)
      ensures forall pos :: Create(name, pos) == Success(creator(pos))
      ensures forall n, pos :: n != name ==> Create(n, pos) == old(Create(n, pos))
    {
      if name !in creators {
        InsertSorted(order, name);
        order := Insert(order, name);
      }
      creators := creators[name := creator];
    }

    /** Every registered name, once each, in ascending order. */
    method GetAllSpeciesNames() returns (names: seq<string>)
      requires Valid()
      ensures Sorted(names)
      ensures forall n :: n in names <==> IsRegistered(n)
      ensures forall i, j :: 0 <= i < j < |names| ==> names[i] != names[j]
    {
      names := [];
      var i := 0;
      while i < |order|
        invariant 0 <= i <= |order|
        invariant names == order[..i]
      {
        names := names + [order[i]];
        i := i + 1;
      }
      assert order[..|order|] == order;
      SortedIsDistinct(order);
    }

    /** Forgets every creator. */
    method Clear()
      modifies this
      ensures Valid()
      ensures creators == map[] && order == []
      ensures forall n :: !IsRegistered(n)
    {
      creators := map[];
      order := [];
    }
  }

  /**
   * register_all_species on the global factory (here a parameter): grass, cow
   * and tiger, each creating its own kind at the given position.
   */
  method RegisterAllSpecies(factory: SpeciesFactory)
    requires factory.Valid()
    modifies factory
    ensures factory.Valid()
    ensures factory.creators == old(factory.creators)["grass" := NewGrass]["cow" := NewCow]["tiger" := NewTiger]
    ensures forall pos :: factory.Create("grass", pos) == Success(NewGrass(pos))
    ensures forall pos :: factory.Create("cow", pos) == Success(NewCow(pos))
    ensures forall pos :: factory.Create("tiger", pos) == Success(NewTiger(pos))
  {
    factory.RegisterSpecies("grass", NewGrass);
    factory.RegisterSpecies("cow", NewCow);
    factory.RegisterSpecies("tiger", NewTiger);
    forall pos
      ensures factory.Create("grass", pos) == Success(NewGrass(pos))
      ensures factory.Create("cow", pos) == Success(NewCow(pos))
    {
      assert factory.creators["grass"] == NewGrass && factory.creators["cow"] == NewCow;
    }
  }
}
