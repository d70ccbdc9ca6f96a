/**
 * PetActionDTO: the mutable holder the refactored importer fills, one field per setter.
 * An unset (null) field is None.
 */
module PetActionDto {
  import opened Wrappers
  import opened Clinic

  /** PetActionDTO.Action. */
  datatype Action = ADD | DELETE

  /** Action.values(): the constants in declaration order. */
  const ActionValues: seq<Action> := [ADD, DELETE]

  /** Action.toString(): the constant's name. */
  function ActionName(a: Action): string {
    match a
    case ADD => "ADD"
    case DELETE => "DELETE"
  }

  /** Action has exactly two values, ADD and DELETE, each listed once by values(). */
  lemma ActionValuesExactly(a: Action)
    ensures a in ActionValues
    ensures |ActionValues| == 2 && ActionValues[0] != ActionValues[1]
  {
    if a.ADD? {
      assert ActionValues[0] == a;
    } else {
      assert ActionValues[1] == a;
    }
  }

  /** What a complete DTO holds. */
  datatype PetAction = PetAction(name: string, dateOfBirth: Date, petType: PetType, owner: Owner, action: Action)

  class PetActionDTO {
    var name: Option<string>
    var petType: Option<PetType>
    var dateOfBirth: Option<Date>
    var owner: Option<Owner>
    var action: Option<Action>

    /** A new DTO has all five fields unset. */
    constructor ()
      ensures name == None && petType == None && dateOfBirth == None && owner == None && action == None
    {
      name := None;
      petType := None;
      dateOfBirth := None;
      owner := None;
      action := None;
    }

    function GetName(): Option<string>
      reads this
    {
      name
    }

    function GetType(): Option<PetType>
      reads this
    {
      petType
    }

    function GetBirthDate(): Option<Date>
      reads this
    {
      dateOfBirth
    }

    function GetOwner(): Option<Owner>
      reads this
    {
      owner
    }

    function GetAction(): Option<Action>
      reads this
    {
      action
    }

    /** setName: getName now returns `v`; the other four fields keep their values. */
    method SetName(v: string)
      modifies this
      ensures GetName() == Some(v)
      ensures GetType() == old(GetType()) && GetBirthDate() == old(GetBirthDate())
      ensures GetOwner() == old(GetOwner()) && GetAction() == old(GetAction())
    {
      name := Some(v);
    }

    /** setType: getType now returns `v`; the other four fields keep their values. */
    method SetType(v: PetType)
      modifies this
      ensures GetType() == Some(v)
      ensures GetName() == old(GetName()) && GetBirthDate() == old(GetBirthDate())
      ensures GetOwner() == old(GetOwner()) && GetAction() == old(GetAction())
    {
      petType := Some(v);
    }

    /** setDateOfBirth: getBirthDate now returns `v`; the other four fields keep their values. */
    method SetDateOfBirth(v: Date)
      modifies this
      ensures GetBirthDate() == Some(v)
      ensures GetName() == old(GetName()) && GetType() == old(GetType())
      ensures GetOwner() == old(GetOwner()) && GetAction() == old(GetAction())
    {
      dateOfBirth := Some(v);
    }

    /** setOwner: getOwner now returns `v`; the other four fields keep their values. */
    method SetOwner(v: Owner)
      modifies this
      ensures GetOwner() == Some(v)
      ensures GetName() == old(GetName()) && GetType() == old(GetType())
      ensures GetBirthDate() == old(GetBirthDate()) && GetAction() == old(GetAction())
    {
      owner := Some(v);
    }

    /** setAction: getAction now returns `v`; the other four fields keep their values. */
    method SetAction(v: Action)
      modifies this
      ensures GetAction() == Some(v)
      ensures GetName() == old(GetName()) && GetType() == old(GetType())
      ensures GetBirthDate() == old(GetBirthDate()) && GetOwner() == old(GetOwner())
    {
      action := Some(v);
    }

    /** All five fields are set. */
    predicate IsComplete()
      reads this
    {
      name.Some? && petType.Some? && dateOfBirth.Some? && owner.Some? && action.Some?
    }

    /** The contents of a complete DTO. */
    function Value(): (v: PetAction)
      requires IsComplete()
      reads this
      ensures Some(v.name) == GetName() && Some(v.petType) == GetType() && Some(v.dateOfBirth) == GetBirthDate()
      ensures Some(v.owner) == GetOwner() && Some(v.action) == GetAction()
    {
      PetAction(name.value, dateOfBirth.value, petType.value, owner.value, action.value)
    }
  }
}
