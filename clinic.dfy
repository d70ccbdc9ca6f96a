/**
 * The clinic entities the importers read and write, and the persistence service they call.
 * Pets are values; the service keeps the stored pets as a sequence.
 */
module Clinic {
  import opened Collections

  /** java.util.Date: an instant in milliseconds; two dates are equal when their instants are. */
  datatype Date = Date(epochMillis: int)

  /** A pet type of the clinic: its database id and its display name. */
  datatype PetType = PetType(id: int, name: string)

  /** An owner, identified for lookups by last name. */
  datatype Owner = Owner(id: int, lastName: string)

  /** A pet as the importers build it: name, birth date, type and owner. */
  datatype Pet = Pet(name: string, birthDate: Date, petType: PetType, owner: Owner)

  /** Owner.getPets(): the stored pets that belong to `o`, in store order. */
  function OwnerPets(pets: seq<Pet>, o: Owner): (r: seq<Pet>)
    ensures forall p :: p in r <==> p in pets && p.owner == o
  {
    var ofOwner := (p: Pet) => p.owner == o;
    forall p ensures p in Filter(pets, ofOwner) <==> p in pets && p.owner == o {
      FilterMembers(pets, ofOwner, p);
    }
    Filter(pets, ofOwner)
  }

  /** `pets` without any copy of `pet`. */
  function Without(pets: seq<Pet>, pet: Pet): (r: seq<Pet>)
    ensures pet !in r
    ensures forall p :: p != pet ==> multiset(r)[p] == multiset(pets)[p]
  {
    FilterMembers(pets, (p: Pet) => p != pet, pet);
    forall p | p != pet
      ensures multiset(Filter(pets, (p: Pet) => p != pet))[p] == multiset(pets)[p]
    {
      FilterMultiplicity(pets, (p: Pet) => p != pet, p);
    }
    Filter(pets, (p: Pet) => p != pet)
  }

  /**
   * The store after deleting the pets of owner `o` that `matches` accepts: those pets are gone
   * and every other stored pet keeps its multiplicity.
   */
  function DeleteOwnerMatches(pets: seq<Pet>, o: Owner, matches: Pet -> bool): (r: seq<Pet>)
    ensures forall p :: p in r <==> p in pets && !(p.owner == o && matches(p))
    ensures forall p: Pet :: !(p.owner == o && matches(p)) ==> multiset(r)[p] == multiset(pets)[p]
  {
    var keep := (x: Pet) => !(x.owner == o && matches(x));
    forall p: Pet
      ensures p in Filter(pets, keep) <==> p in pets && !(p.owner == o && matches(p))
      ensures !(p.owner == o && matches(p)) ==> multiset(Filter(pets, keep))[p] == multiset(pets)[p]
    {
      FilterMembers(pets, keep, p);
      FilterMultiplicity(pets, keep, p);
    }
    Filter(pets, keep)
  }

  /** When no stored pet of `o` matches, the store is unchanged. */
  lemma DeleteOwnerMatchesNothing(pets: seq<Pet>, o: Owner, matches: Pet -> bool)
    requires forall p :: p in pets ==> !(p.owner == o && matches(p))
    ensures DeleteOwnerMatches(pets, o, matches) == pets
  {
    FilterKeepsAll(pets, (x: Pet) => !(x.owner == o && matches(x)));
  }

  /**
   * A delete loop part-way through: the store after deleting, among the pets `visited` so far,
   * those `matches` accepts.
   */
  function AfterVisiting(pets: seq<Pet>, matches: Pet -> bool, visited: seq<Pet>): seq<Pet> {
    Filter(pets, (x: Pet) => !(x in visited && matches(x)))
  }

  /** Before the first visit the store is unchanged. */
  lemma AfterVisitingNone(pets: seq<Pet>, matches: Pet -> bool)
    ensures AfterVisiting(pets, matches, []) == pets
  {
    FilterKeepsAll(pets, (x: Pet) => !(x in [] && matches(x)));
  }

  /** Visiting one more pet that `matches` accepts deletes it. */
  lemma AfterVisitingMatch(pets: seq<Pet>, matches: Pet -> bool, visited: seq<Pet>, next: Pet)
    requires matches(next)
    ensures AfterVisiting(pets, matches, visited + [next]) == Without(AfterVisiting(pets, matches, visited), next)
  {
    FilterFilter(pets, (x: Pet) => !(x in visited && matches(x)), (p: Pet) => p != next,
                 (x: Pet) => !(x in visited + [next] && matches(x)));
  }

  /** Visiting one more pet that `matches` rejects changes nothing. */
  lemma AfterVisitingSkip(pets: seq<Pet>, matches: Pet -> bool, visited: seq<Pet>, next: Pet)
    requires !matches(next)
    ensures AfterVisiting(pets, matches, visited + [next]) == AfterVisiting(pets, matches, visited)
  {
    FilterExtensional(pets, (x: Pet) => !(x in visited && matches(x)),
                      (x: Pet) => !(x in visited + [next] && matches(x)));
  }

  /** Visiting every pet of `o`, as they were before the first delete, deletes exactly DeleteOwnerMatches. */
  lemma AfterVisitingOwner(pets: seq<Pet>, o: Owner, matches: Pet -> bool)
    ensures AfterVisiting(pets, matches, OwnerPets(pets, o)) == DeleteOwnerMatches(pets, o, matches)
  {
    var ownerPets := OwnerPets(pets, o);
    FilterExtensional(pets, (x: Pet) => !(x in ownerPets && matches(x)),
                      (x: Pet) => !(x.owner == o && matches(x)));
  }

  /** The persistence service (ClinicService) reduced to the pets it stores. */
  class ClinicService {
    var pets: seq<Pet>

    constructor (initial: seq<Pet>)
      ensures pets == initial
    {
      pets := initial;
    }

    /** savePet on a new pet: it is stored after the existing ones. */
    method SavePet(pet: Pet)
      modifies this
      ensures pets == old(pets) + [pet]
    {
      pets := pets + [pet];
    }

    /** deletePet: the stored pet `pet` is no longer stored; nothing else changes. */
    method DeletePet(pet: Pet)
      modifies this
      ensures pets == Without(old(pets), pet)
    {
      pets := Without(pets, pet);
    }
  }
}
