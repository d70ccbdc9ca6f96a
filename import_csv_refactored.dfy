/**
 * ImportCSVRefactored: reads records with SimpleCsvParser, turns each into a PetActionDTO
 * (name; date of birth; type; owner last name; optional action) and applies it at once.
 * The first malformed record ends the import with its message; the actions applied before stay applied.
 * The pet types, the owner lookup and the date parser are parameters.
 */
module ImportCsvRefactored {
  import opened Wrappers
  import opened Text
  import opened Clinic
  import opened SimpleCsv
  import opened PetActionDto

  // ---------------------------------------------------------------------------------------
  // The messages of MalformedCSVException
  // ---------------------------------------------------------------------------------------

  const PetNameMissing := "Pet name missing"
  const DateOfBirthMissing := "Date of birth missing"
  const DateOfBirthInvalid := "Date of birth format invalid"
  const PetTypeMissing := "Pet type missing"
  const OwnerNameMissing := "Owner name missing"
  const UnknownOwner := "Unknown owner"
  const OwnerNotUnique := "Owner name not unique"
  const UnknownAction := "Unknown action"

  function UnknownPetType(typeString: string): string {
    "Unknown pet type '" + typeString + "'"
  }

  // ---------------------------------------------------------------------------------------
  // The record iterator
  // ---------------------------------------------------------------------------------------

  /** Iterator<String> over a record; `rest` is what next() has not yet returned. */
  class RecordIterator {
    var rest: seq<string>

    constructor (record: seq<string>)
      ensures rest == record
    {
      rest := record;
    }

    method HasNext() returns (b: bool)
      ensures b <==> rest != []
    {
      b := rest != [];
    }

    /** next(): the first field not yet returned. */
    method Next() returns (field: string)
      requires rest != []
      modifies this
      ensures [field] + rest == old(rest)
    {
      field := rest[0];
      rest := rest[1..];
    }
  }

  // ---------------------------------------------------------------------------------------
  // Looking up a type and an action
  // ---------------------------------------------------------------------------------------

  /** Position of the first type, from `i` on, whose lower-cased name is `s`; |types| when there is none. */
  function FirstTypeNamed(types: seq<PetType>, s: string, i: nat): (k: nat)
    requires i <= |types|
    ensures i <= k <= |types|
    ensures forall j :: i <= j < k ==> ToLower(types[j].name) != s
    ensures k < |types| ==> ToLower(types[k].name) == s
    decreases |types| - i
  {
    if i == |types| || ToLower(types[i].name) == s then i else FirstTypeNamed(types, s, i + 1)
  }

  /** The type readType picks: the first one whose lower-cased name is `s`. */
  function FindType(types: seq<PetType>, s: string): (r: Option<PetType>)
    ensures r.None? <==> forall j :: 0 <= j < |types| ==> ToLower(types[j].name) != s
    ensures r.Some? ==> exists k :: 0 <= k < |types| && types[k] == r.value && ToLower(types[k].name) == s &&
                                   forall j :: 0 <= j < k ==> ToLower(types[j].name) != s
  {
    var k := FirstTypeNamed(types, s, 0);
    if k < |types| then Some(types[k]) else None
  }

  /** The action readOptionalAction picks: the one whose name equals `entry` ignoring case. */
  function FindAction(entry: string): (r: Option<Action>)
    ensures forall a :: r == Some(a) <==> EqualsIgnoreCase(ActionName(a), entry)
  {
    if EqualsIgnoreCase(ActionName(ADD), entry) then
      assert |ToLower(ActionName(ADD))| != |ToLower(ActionName(DELETE))|;
      Some(ADD)
    else if EqualsIgnoreCase(ActionName(DELETE), entry) then Some(DELETE)
    else None
  }

  // ---------------------------------------------------------------------------------------
  // Reading one record, as a specification
  // ---------------------------------------------------------------------------------------

  /**
   * All checks of readPetAction pass: the four fields are there, the date parses, the type is
   * known, exactly one owner has the last name and a fifth field, if any, names an action.
   */
  predicate RecordAccepted(record: seq<string>, types: seq<PetType>, findOwner: string -> seq<Owner>,
                           parseDate: string -> Option<Date>)
  {
    && |record| >= 4
    && parseDate(record[1]).Some?
    && FindType(types, record[2]).Some?
    && |findOwner(record[3])| == 1
    && (|record| >= 5 ==> FindAction(record[4]).Some?)
  }

  /**
   * readPetAction on one record: the first failing check, in field order, gives its message;
   * otherwise the action with the fields read, ADD when the record has only four fields.
   */
  function ReadRecord(record: seq<string>, types: seq<PetType>, findOwner: string -> seq<Owner>,
                      parseDate: string -> Option<Date>): (r: Result<PetAction, string>)
    ensures r.Success? <==> RecordAccepted(record, types, findOwner, parseDate)
    ensures r.Success? ==> && r.value.name == record[0]
                           && Some(r.value.dateOfBirth) == parseDate(record[1])
                           && Some(r.value.petType) == FindType(types, record[2])
                           && r.value.owner in findOwner(record[3])
                           && r.value.action == (if |record| == 4 then ADD else FindAction(record[4]).value)
  {
    if |record| < 1 then Failure(PetNameMissing)
    else if |record| < 2 then Failure(DateOfBirthMissing)
    else if parseDate(record[1]).None? then Failure(DateOfBirthInvalid)
    else if |record| < 3 then Failure(PetTypeMissing)
    else if FindType(types, record[2]).None? then Failure(UnknownPetType(record[2]))
    else if |record| < 4 then Failure(OwnerNameMissing)
    else if |findOwner(record[3])| == 0 then Failure(UnknownOwner)
    else if |findOwner(record[3])| > 1 then Failure(OwnerNotUnique)
    else if |record| >= 5 && FindAction(record[4]).None? then Failure(UnknownAction)
    else
      Success(PetAction(record[0], parseDate(record[1]).value, FindType(types, record[2]).value,
                        findOwner(record[3])[0], if |record| < 5 then ADD else FindAction(record[4]).value))
  }

  // ---------------------------------------------------------------------------------------
  // The readers
  // ---------------------------------------------------------------------------------------

  /** readName: the next field, whatever it holds. */
  method ReadName(it: RecordIterator) returns (r: Result<string, string>)
    modifies it
    ensures old(it.rest) == [] ==> r == Failure(PetNameMissing) && it.rest == []
    ensures old(it.rest) != [] ==> r == Success(old(it.rest)[0]) && it.rest == old(it.rest)[1..]
  {
    var more := it.HasNext();
    if !more {
      return Failure(PetNameMissing);
    }
    var name := it.Next();
    return Success(name);
  }

  /** readDateOfBirth: the next field parsed as a date. */
  method ReadDateOfBirth(it: RecordIterator, parseDate: string -> Option<Date>) returns (r: Result<Date, string>)
    modifies it
    ensures old(it.rest) == [] ==> r == Failure(DateOfBirthMissing) && it.rest == []
    ensures old(it.rest) != [] ==> (it.rest == old(it.rest)[1..] &&
              r == match parseDate(old(it.rest)[0])
                   case None => Failure(DateOfBirthInvalid)
                   case Some(d) => Success(d))
  {
    var more := it.HasNext();
    if !more {
      return Failure(DateOfBirthMissing);
    }
    var dateEntry := it.Next();
    var parsed := parseDate(dateEntry);
    if parsed.None? {
      return Failure(DateOfBirthInvalid);
    }
    return Success(parsed.value);
  }

  /** readType: the first of `types` whose lower-cased name is the next field. */
  method ReadType(it: RecordIterator, types: seq<PetType>) returns (r: Result<PetType, string>)
    modifies it
    ensures old(it.rest) == [] ==> r == Failure(PetTypeMissing) && it.rest == []
    ensures old(it.rest) != [] ==> (it.rest == old(it.rest)[1..] &&
              r == match FindType(types, old(it.rest)[0])
                   case None => Failure(UnknownPetType(old(it.rest)[0]))
                   case Some(t) => Success(t))
  {
    var more := it.HasNext();
    if !more {
      return Failure(PetTypeMissing);
    }
    var typeString := it.Next();
    for k := 0 to |types|
      invariant forall j :: 0 <= j < k ==> ToLower(types[j].name) != typeString
    {
      if typeString == ToLower(types[k].name) {
        assert FirstTypeNamed(types, typeString, 0) == k by {
          FirstTypeNamedAt(types, typeString, k);
        }
        return Success(types[k]);
      }
    }
    return Failure(UnknownPetType(typeString));
  }

  /** The search from 0 stops at the first match. */
  lemma FirstTypeNamedAt(types: seq<PetType>, s: string, k: nat)
    requires k < |types| && ToLower(types[k].name) == s
    requires forall j :: 0 <= j < k ==> ToLower(types[j].name) != s
    ensures FirstTypeNamed(types, s, 0) == k
  {
  }

  /** readOwner: the single owner with the next field as last name. */
  method ReadOwner(it: RecordIterator, findOwner: string -> seq<Owner>) returns (r: Result<Owner, string>)
    modifies it
    ensures old(it.rest) == [] ==> r == Failure(OwnerNameMissing) && it.rest == []
    ensures old(it.rest) != [] ==> (it.rest == old(it.rest)[1..] &&
              var owners := findOwner(old(it.rest)[0]);
              r == if |owners| == 0 then Failure(UnknownOwner)
                   else if |owners| > 1 then Failure(OwnerNotUnique)
                   else Success(owners[0]))
  {
    var more := it.HasNext();
    if !more {
      return Failure(OwnerNameMissing);
    }
    var ownerLastNameEntry := it.Next();
    var owners := findOwner(ownerLastNameEntry);
    if |owners| == 0 {
      return Failure(UnknownOwner);
    } else if |owners| > 1 {
      return Failure(OwnerNotUnique);
    } else {
      return Success(owners[0]);
    }
  }

  /** readOptionalAction: ADD when the record has no fifth field, else the action it names. */
  method ReadOptionalAction(it: RecordIterator) returns (r: Result<Action, string>)
    modifies it
    ensures old(it.rest) == [] ==> r == Success(ADD) && it.rest == []
    ensures old(it.rest) != [] ==> (it.rest == old(it.rest)[1..] &&
              r == match FindAction(old(it.rest)[0])
                   case None => Failure(UnknownAction)
                   case Some(a) => Success(a))
  {
    var more := it.HasNext();
    if !more {
      return Success(ADD);
    }
    var actionEntry := it.Next();
    for k := 0 to |ActionValues|
      invariant forall j :: 0 <= j < k ==> !EqualsIgnoreCase(ActionName(ActionValues[j]), actionEntry)
    {
      var action := ActionValues[k];
      if EqualsIgnoreCase(ActionName(action), actionEntry) {
        return Success(action);
      }
    }
    assert !EqualsIgnoreCase(ActionName(ActionValues[0]), actionEntry);
    assert !EqualsIgnoreCase(ActionName(ActionValues[1]), actionEntry);
    return Failure(UnknownAction);
  }

  /**
   * The reader calls of readPetAction: fill `dto` from the fields `it` has left, in the order
   * name, date of birth, type, owner, action; the first reader that fails decides the error.
   */
  method FillPetAction(dto: PetActionDTO, it: RecordIterator, ghost record: seq<string>, types: seq<PetType>,
                       findOwner: string -> seq<Owner>, parseDate: string -> Option<Date>)
    returns (r: Result<PetActionDTO, string>)
    requires it.rest == record
    modifies dto, it
    ensures var expected := ReadRecord(record, types, findOwner, parseDate);
            && (r.Success? <==> expected.Success?)
            && (r.Failure? ==> r.error == expected.error)
            && (r.Success? ==> r.value == dto && dto.IsComplete() && dto.Value() == expected.value)
  {
    var name := ReadName(it);
    if name.Failure? {
      return Failure(name.error);
    }
    dto.SetName(name.value);
    assert it.rest == record[1..];
    var dateOfBirth := ReadDateOfBirth(it, parseDate);
    if dateOfBirth.Failure? {
      return Failure(dateOfBirth.error);
    }
    dto.SetDateOfBirth(dateOfBirth.value);
    assert it.rest == record[2..];
    var petType := ReadType(it, types);
    if petType.Failure? {
      return Failure(petType.error);
    }
    dto.SetType(petType.value);
    assert it.rest == record[3..];
    var owner := ReadOwner(it, findOwner);
    if owner.Failure? {
      return Failure(owner.error);
    }
    dto.SetOwner(owner.value);
    assert it.rest == record[4..];
    var action := ReadOptionalAction(it);
    if action.Failure? {
      return Failure(action.error);
    }
    dto.SetAction(action.value);
    ghost var read := PetAction(name.value, dateOfBirth.value, petType.value, owner.value, action.value);
    assert |record| == 4 ==> action.value == ADD;
    ReadRecordSucceeds(record, types, findOwner, parseDate, read);
    assert dto.Value() == read;
    return Success(dto);
  }

  /**
   * readPetAction: reads the parser's next record and fills a new DTO field by field; the
   * result is what ReadRecord gives for that record.
   */
  method ReadPetAction(parser: SimpleCsvParser, types: seq<PetType>, findOwner: string -> seq<Owner>,
                       parseDate: string -> Option<Date>) returns (r: Result<PetActionDTO, string>)
    requires parser.rest != []
    modifies parser
    ensures parser.rest == AfterFirstLine(old(parser.rest))
    ensures var expected := ReadRecord(JavaSplit(FirstLine(old(parser.rest))), types, findOwner, parseDate);
            && (r.Success? <==> expected.Success?)
            && (r.Failure? ==> r.error == expected.error)
            && (r.Success? ==> fresh(r.value) && r.value.IsComplete() && r.value.Value() == expected.value)
  {
    var petActionDto := new PetActionDTO();
    var record := parser.NextRecord();
    var recordIterator := new RecordIterator(record);
    r := FillPetAction(petActionDto, recordIterator, record, types, findOwner, parseDate);
  }

  /** A record whose checks all pass reads as the action built from its fields. */
  lemma ReadRecordSucceeds(record: seq<string>, types: seq<PetType>, findOwner: string -> seq<Owner>,
                           parseDate: string -> Option<Date>, a: PetAction)
    requires |record| >= 4 && a.name == record[0] && parseDate(record[1]) == Some(a.dateOfBirth)
    requires FindType(types, record[2]) == Some(a.petType)
    requires |findOwner(record[3])| == 1 && findOwner(record[3])[0] == a.owner
    requires |record| == 4 ==> a.action == ADD
    requires |record| >= 5 ==> FindAction(record[4]) == Some(a.action)
    ensures ReadRecord(record, types, findOwner, parseDate) == Success(a)
  {
  }

  // ---------------------------------------------------------------------------------------
  // Applying an action
  // ---------------------------------------------------------------------------------------

  /** A stored pet a DELETE of `a` removes: same name, type and birth date (Objects.equals on each). */
  predicate SameEntry(a: PetAction, existing: Pet) {
    existing.name == a.name && existing.petType == a.petType && existing.birthDate == a.dateOfBirth
  }

  /** petActionToPet: the pet the action describes, which is also what a DELETE of it would match. */
  function PetActionToPet(a: PetAction): (pet: Pet)
    ensures SameEntry(a, pet) && pet.owner == a.owner
  {
    Pet(a.name, a.dateOfBirth, a.petType, a.owner)
  }

  /** The store after one action: ADD stores its pet, DELETE removes the owner's pets it matches. */
  function ActionEffect(pets: seq<Pet>, a: PetAction): seq<Pet> {
    match a.action
    case ADD => pets + [PetActionToPet(a)]
    case DELETE => DeleteOwnerMatches(pets, a.owner, (x: Pet) => SameEntry(a, x))
  }

  /** applyAction: ADD saves the pet the DTO describes; DELETE removes the owner's pets it matches. */
  method ApplyAction(clinic: ClinicService, dto: PetActionDTO)
    requires dto.IsComplete()
    modifies clinic
    ensures clinic.pets == ActionEffect(old(clinic.pets), dto.Value())
  {
    match dto.GetAction().value {
      case ADD =>
        clinic.SavePet(PetActionToPet(dto.Value()));
      case DELETE =>
        DeleteOwnerPetsLike(clinic, dto.Value());
    }
  }

  /**
   * The DELETE case of applyAction on the DTO's contents `a`: walks the owner's pets (as they
   * were before the first delete) and deletes each one whose name, type and birth date equal
   * the DTO's.
   */
  method DeleteOwnerPetsLike(clinic: ClinicService, a: PetAction)
    requires a.action == DELETE
    modifies clinic
    ensures clinic.pets == ActionEffect(old(clinic.pets), a)
  {
    ghost var before := clinic.pets;
    ghost var matches := (x: Pet) => SameEntry(a, x);
    var ownerPets := OwnerPets(clinic.pets, a.owner);
    AfterVisitingNone(before, matches);
    for k := 0 to |ownerPets|
      invariant clinic.pets == AfterVisiting(before, matches, ownerPets[..k])
    {
      var existingPet := ownerPets[k];
      assert ownerPets[..k + 1] == ownerPets[..k] + [existingPet];
      if existingPet.name == a.name && existingPet.petType == a.petType && existingPet.birthDate == a.dateOfBirth {
        AfterVisitingMatch(before, matches, ownerPets[..k], existingPet);
        clinic.DeletePet(existingPet);
      } else {
        AfterVisitingSkip(before, matches, ownerPets[..k], existingPet);
      }
    }
    assert ownerPets[..|ownerPets|] == ownerPets;
    AfterVisitingOwner(before, a.owner, matches);
  }

  // ---------------------------------------------------------------------------------------
  // The whole import
  // ---------------------------------------------------------------------------------------

  /** What the import returns and what the store holds afterwards. */
  type ActionsOutcome = (Result<seq<PetAction>, string>, seq<Pet>)

  /** Put the actions of records already done in front of the outcome of the remaining records. */
  function PrependActions(done: seq<PetAction>, rest: ActionsOutcome): ActionsOutcome {
    (if rest.0.Success? then Success(done + rest.0.value) else rest.0, rest.1)
  }

  /** The import by value: records in order, each read and applied, the first malformed one aborting. */
  function RunActions(records: seq<seq<string>>, types: seq<PetType>, findOwner: string -> seq<Owner>,
                      parseDate: string -> Option<Date>, pets: seq<Pet>): ActionsOutcome
    decreases |records|
  {
    if records == [] then (Success([]), pets)
    else
      match ReadRecord(records[0], types, findOwner, parseDate)
      case Failure(message) => (Failure(message), pets)
      case Success(a) => PrependActions([a], RunActions(records[1..], types, findOwner, parseDate, ActionEffect(pets, a)))
  }

  /**
   * parsePetActions: while the parser has a record, read it into a DTO, keep the DTO and apply it.
   * The list returned (the DTOs' contents) and the new store are those of RunActions on the
   * parser's records.
   */
  method ParsePetActions(clinic: ClinicService, csv: string, types: seq<PetType>, findOwner: string -> seq<Owner>,
                         parseDate: string -> Option<Date>) returns (r: Result<seq<PetAction>, string>)
    modifies clinic
    ensures (r, clinic.pets) == RunActions(Records(csv), types, findOwner, parseDate, old(clinic.pets))
  {
    var csvParser := new SimpleCsvParser(csv);
    var parsedPetActionDtos: seq<PetAction> := [];
    ghost var goal := RunActions(Records(csv), types, findOwner, parseDate, clinic.pets);
    assert PrependActions([], goal) == goal by {
      if goal.0.Success? {
        assert [] + goal.0.value == goal.0.value;
      }
    }
    var more := csvParser.HasNextRecord();
    HasTokenMeans(csvParser.rest);
    while more
      invariant more <==> HasToken(csvParser.rest)
      invariant PrependActions(parsedPetActionDtos, RunActions(Records(csvParser.rest), types, findOwner, parseDate, clinic.pets)) == goal
      decreases |csvParser.rest|
    {
      RunActionsText(csvParser.rest, types, findOwner, parseDate, clinic.pets, parsedPetActionDtos);
      var petActionDto := ReadPetAction(csvParser, types, findOwner, parseDate);
      if petActionDto.Failure? {
        return Failure(petActionDto.error);
      }
      var dto := petActionDto.value;
      parsedPetActionDtos := parsedPetActionDtos + [dto.Value()];
      ApplyAction(clinic, dto);
      more := csvParser.HasNextRecord();
      HasTokenMeans(csvParser.rest);
    }
    assert Records(csvParser.rest) == [];
    assert parsedPetActionDtos + [] == parsedPetActionDtos;
    return Success(parsedPetActionDtos);
  }

  /** One step of the import on the parser's remaining text. */
  lemma RunActionsText(text: string, types: seq<PetType>, findOwner: string -> seq<Owner>,
                       parseDate: string -> Option<Date>, pets: seq<Pet>, done: seq<PetAction>)
    requires HasToken(text)
    ensures var here := ReadRecord(JavaSplit(FirstLine(text)), types, findOwner, parseDate);
            PrependActions(done, RunActions(Records(text), types, findOwner, parseDate, pets)) ==
              if here.Failure? then (Failure(here.error), pets)
              else PrependActions(done + [here.value],
                                  RunActions(Records(AfterFirstLine(text)), types, findOwner, parseDate,
                                             ActionEffect(pets, here.value)))
  {
    var record := JavaSplit(FirstLine(text));
    assert Records(text) == [record] + Records(AfterFirstLine(text));
    RunActionsStep(record, Records(AfterFirstLine(text)), types, findOwner, parseDate, pets, done);
  }

  /** One step of the import: the next record either aborts it or adds its action in front of the rest. */
  lemma RunActionsStep(record: seq<string>, records: seq<seq<string>>, types: seq<PetType>,
                       findOwner: string -> seq<Owner>, parseDate: string -> Option<Date>, pets: seq<Pet>,
                       done: seq<PetAction>)
    ensures var here := ReadRecord(record, types, findOwner, parseDate);
            PrependActions(done, RunActions([record] + records, types, findOwner, parseDate, pets)) ==
              if here.Failure? then (Failure(here.error), pets)
              else PrependActions(done + [here.value],
                                  RunActions(records, types, findOwner, parseDate, ActionEffect(pets, here.value)))
  {
    assert ([record] + records)[0] == record;
    assert ([record] + records)[1..] == records;
    var here := ReadRecord(record, types, findOwner, parseDate);
    if here.Success? {
      var rest := RunActions(records, types, findOwner, parseDate, ActionEffect(pets, here.value));
      if rest.0.Success? {
        assert done + ([here.value] + rest.0.value) == (done + [here.value]) + rest.0.value;
      }
    }
  }
}
