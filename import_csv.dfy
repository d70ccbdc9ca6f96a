/**
 * The original importer (importcsv/ImportCSV.java): a hand-written character-loop tokenizer,
 * a row validator with a fixed order of checks, identity matching for deletes and the batch
 * loop that applies each row to the clinic service as soon as it is validated.
 */
module ImportCsv {
  import opened Wrappers
  import opened Collections
  import opened Text
  import opened Clinic

  /** ImportCSV.ClinicPetAction. */
  datatype ClinicPetAction = ADD | DELETE

  /** ImportCSV.PetRowResult: a validated row. */
  datatype PetRowResult = PetRowResult(pet: Pet, action: ClinicPetAction)

  /** What a batch returns (the pets of all rows, or the first error message) and the store afterwards. */
  type BatchOutcome = (Result<seq<Pet>, string>, seq<Pet>)

  // ---------------------------------------------------------------------------------------
  // Tokenizer
  // ---------------------------------------------------------------------------------------

  /** An ArrayList<String> row that the tokenizer grows in place. */
  class FieldList {
    var items: seq<string>

    constructor ()
      ensures items == []
    {
      items := [];
    }

    method Add(field: string)
      modifies this
      ensures items == old(items) + [field]
    {
      items := items + [field];
    }
  }

  /** The fields of a line that a newline closed: every `;`-separated piece, empty ones included. */
  function LineFields(line: string): seq<string> {
    SplitOn(line, ';')
  }

  /**
   * The fields of the unterminated last line: the same pieces, except that a `;` which is the
   * very last input character closes the last field without opening an empty one.
   */
  function LastLineFields(line: string): seq<string> {
    if line != [] && line[|line| - 1] == ';' then ClosedPieces(line, ';') else SplitOn(line, ';')
  }

  /** The rows of a sequence of complete lines. */
  function RowsOf(lines: seq<string>): (rows: seq<seq<string>>)
    ensures |rows| == |lines|
    decreases |lines|
  {
    if lines == [] then [] else RowsOf(lines[..|lines| - 1]) + [LineFields(lines[|lines| - 1])]
  }

  /** Row `k` holds the fields of line `k`. */
  lemma {:induction false} RowsOfAt(lines: seq<string>, k: nat)
    requires k < |lines|
    ensures RowsOf(lines)[k] == LineFields(lines[k])
    decreases |lines|
  {
    if k < |lines| - 1 {
      RowsOfAt(lines[..|lines| - 1], k);
    }
  }

  /**
   * One row per newline-terminated line, plus one for a non-empty unterminated last line:
   * the rows the tokenizer closes, in input order.
   */
  function ClosedRows(csv: string): seq<seq<string>> {
    var last := OpenPiece(csv, '\n');
    RowsOf(ClosedPieces(csv, '\n')) + (if last == [] then [] else [LastLineFields(last)])
  }

  /**
   * What readNextFieldCSV returns, by value: the first row is in the list twice (it is added
   * when the list is created and again when it is closed); empty input gives one empty row.
   */
  function Tokenize(csv: string): seq<seq<string>> {
    var rows := ClosedRows(csv);
    if rows == [] then [[]] else [rows[0]] + rows
  }

  /** The variables of readNextFieldCSV besides the list objects: rows closed, current fields, field start. */
  datatype Scan = Scan(closed: seq<seq<string>>, fields: seq<string>, oldIndex: nat)

  /** One iteration of the loop of readNextFieldCSV, reading character `j`. */
  ghost function ScanNext(csv: string, j: nat, s: Scan): (r: Scan)
    requires j < |csv| && s.oldIndex <= j
    ensures r.oldIndex <= j + 1
  {
    var ch := csv[j];
    var endOfLine := ch == '\n';
    var endOfFile := j + 1 == |csv|;
    var separator := ch == ';';
    var fields := if separator || endOfLine then s.fields + [csv[s.oldIndex..j]]
                  else if endOfFile then s.fields + [csv[s.oldIndex..j + 1]]
                  else s.fields;
    var oldIndex := if separator || endOfLine then j + 1 else s.oldIndex;
    if endOfFile || endOfLine then Scan(s.closed + [fields], [], oldIndex) else Scan(s.closed, fields, oldIndex)
  }

  /** The variables of readNextFieldCSV after its loop has read `i` characters. */
  ghost function ScanAfter(csv: string, i: nat): (r: Scan)
    requires i <= |csv|
    ensures r.oldIndex <= i
  {
    if i == 0 then Scan([], [], 0) else ScanNext(csv, i - 1, ScanAfter(csv, i - 1))
  }

  /**
   * What the loop variables mean after `i` characters: before the end, `closed` holds the rows
   * of the complete lines read so far, `fields` the fields the current line has closed and
   * `oldIndex` the start of its open field; at the end, `closed` is every row.
   */
  ghost predicate ScanState(csv: string, i: nat, s: Scan)
  {
    && i <= |csv|
    && s.oldIndex <= i
    && (i < |csv| ==>
         var line := OpenPiece(csv[..i], '\n');
         && s.closed == RowsOf(ClosedPieces(csv[..i], '\n'))
         && s.fields == ClosedPieces(line, ';')
         && csv[s.oldIndex..i] == OpenPiece(line, ';'))
    && (i == |csv| ==> s.closed == ClosedRows(csv))
  }

  /** Reading a newline closes the current field and the current row. */
  lemma ScanStepNewline(csv: string, i: nat, s: Scan)
    requires i < |csv| && csv[i] == '\n' && ScanState(csv, i, s)
    ensures ScanState(csv, i + 1, ScanNext(csv, i, s))
  {
    var prefix := csv[..i];
    var line := OpenPiece(prefix, '\n');
    assert csv[..i + 1] == prefix + ['\n'];
    SplitOnSnoc(prefix, '\n', '\n');
    assert (ClosedPieces(prefix, '\n') + [line])[..|ClosedPieces(prefix, '\n')|] == ClosedPieces(prefix, '\n');
    if i + 1 == |csv| {
      assert csv[..i + 1] == csv;
    }
  }

  /** Reading a `;` closes the current field; at the very end it also closes the row. */
  lemma ScanStepSeparator(csv: string, i: nat, s: Scan)
    requires i < |csv| && csv[i] == ';' && ScanState(csv, i, s)
    ensures ScanState(csv, i + 1, ScanNext(csv, i, s))
  {
    var prefix := csv[..i];
    var line := OpenPiece(prefix, '\n');
    assert csv[..i + 1] == prefix + [';'];
    SplitOnSnoc(prefix, ';', '\n');
    SplitOnSnoc(line, ';', ';');
    if i + 1 == |csv| {
      assert csv[..i + 1] == csv;
    }
  }

  /** Reading any other character extends the open field; at the very end it closes field and row. */
  lemma ScanStepOther(csv: string, i: nat, s: Scan)
    requires i < |csv| && csv[i] != '\n' && csv[i] != ';' && ScanState(csv, i, s)
    ensures ScanState(csv, i + 1, ScanNext(csv, i, s))
  {
    var prefix := csv[..i];
    var ch := csv[i];
    var line := OpenPiece(prefix, '\n');
    var field := csv[s.oldIndex..i];
    assert csv[s.oldIndex..i + 1] == field + [ch];
    if i + 1 == |csv| {
      LastCharacterOther(csv, line, s.fields, field);
      assert ScanNext(csv, i, s) == Scan(s.closed + [s.fields + [field + [ch]]], [], s.oldIndex);
    } else {
      assert csv[..i + 1] == prefix + [ch];
      SplitOnSnoc(prefix, ch, '\n');
      SplitOnSnoc(line, ch, ';');
      assert ScanNext(csv, i, s) == s;
      assert OpenPiece(csv[..i + 1], '\n') == line + [ch];
      assert ClosedPieces(csv[..i + 1], '\n') == ClosedPieces(prefix, '\n');
      assert ClosedPieces(line + [ch], ';') == s.fields;
      assert OpenPiece(line + [ch], ';') == csv[s.oldIndex..i + 1];
    }
  }

  /** When the last character ends neither a line nor a field, it closes the last line's last field. */
  lemma LastCharacterOther(csv: string, line: string, fields: seq<string>, field: string)
    requires csv != [] && csv[|csv| - 1] != '\n' && csv[|csv| - 1] != ';'
    requires line == OpenPiece(csv[..|csv| - 1], '\n')
    requires fields == ClosedPieces(line, ';') && field == OpenPiece(line, ';')
    ensures ClosedRows(csv) == RowsOf(ClosedPieces(csv[..|csv| - 1], '\n')) + [fields + [field + [csv[|csv| - 1]]]]
  {
    var ch := csv[|csv| - 1];
    assert csv == csv[..|csv| - 1] + [ch];
    SplitOnSnoc(csv[..|csv| - 1], ch, '\n');
    SplitOnSnoc(line, ch, ';');
    assert OpenPiece(csv, '\n') == line + [ch];
    assert LastLineFields(line + [ch]) == fields + [field + [ch]];
  }

  /** The loop variables of readNextFieldCSV always mean what ScanState says. */
  lemma {:induction false} ScanAfterMeaning(csv: string, i: nat)
    requires i <= |csv|
    ensures ScanState(csv, i, ScanAfter(csv, i))
    decreases i
  {
    if i == 0 {
      assert csv[..0] == [];
    } else {
      ScanAfterMeaning(csv, i - 1);
      var s := ScanAfter(csv, i - 1);
      if csv[i - 1] == '\n' {
        ScanStepNewline(csv, i - 1, s);
      } else if csv[i - 1] == ';' {
        ScanStepSeparator(csv, i - 1, s);
      } else {
        ScanStepOther(csv, i - 1, s);
      }
    }
  }

  /** Once the whole input is read, the closed rows give the result of readNextFieldCSV. */
  lemma TokenizeFromScan(csv: string)
    ensures var s := ScanAfter(csv, |csv|);
            && (csv == [] <==> s.closed == [])
            && Tokenize(csv) == if s.closed == [] then [s.fields] else [s.closed[0]] + s.closed
  {
    ScanAfterMeaning(csv, |csv|);
  }

  /**
   * readNextFieldCSV: scans the input once, cutting a field at every `;` and `\n` and a row at
   * every `\n` and at the end of the input. The first row object is in the result twice.
   */
  method ReadNextFieldCsv(csv: string) returns (dataElements: seq<FieldList>)
    ensures |dataElements| == |Tokenize(csv)|
    ensures forall k :: 0 <= k < |dataElements| ==> dataElements[k].items == Tokenize(csv)[k]
    ensures csv != [] ==> dataElements[0] == dataElements[1]
  {
    var currentRow := new FieldList();
    dataElements := [currentRow];
    var oldIndex := 0;
    ghost var first := currentRow;
    ghost var done: seq<FieldList> := [];
    ghost var closed: seq<seq<string>> := [];
    for i := 0 to |csv|
      invariant fresh(currentRow)
      invariant dataElements == [first] + done
      invariant done == [] ==> currentRow == first
      invariant done != [] ==> done[0] == first
      invariant |done| == |closed|
      invariant forall k :: 0 <= k < |done| ==> done[k] != currentRow && done[k].items == closed[k]
      invariant Scan(closed, currentRow.items, oldIndex) == ScanAfter(csv, i)
    {
      var isEndOfLine := csv[i] == '\n';
      var isEndOfFile := i + 1 == |csv|;
      var isSeparator := csv[i] == ';';
      if isSeparator || isEndOfLine {
        currentRow.Add(csv[oldIndex..i]);
        oldIndex := i + 1;
      } else if isEndOfFile {
        currentRow.Add(csv[oldIndex..i + 1]);
      }
      if isEndOfFile || isEndOfLine {
        closed := closed + [currentRow.items];
        dataElements := dataElements + [currentRow];
        done := done + [currentRow];
        currentRow := new FieldList();
      }
    }
    TokenizeFromScan(csv);
  }

  // ---------------------------------------------------------------------------------------
  // Row validation
  // ---------------------------------------------------------------------------------------

  /** The lower-cased action field: "add" or "" is ADD, "delete" is DELETE, anything else unknown. */
  function ParseClinicPetAction(field: string): Option<ClinicPetAction> {
    var lower := ToLower(field);
    if lower == "add" || lower == "" then Some(ADD)
    else if lower == "delete" then Some(DELETE)
    else None
  }

  /** The owners whose last name is exactly `lastName`, in their original order. */
  function OwnersNamed(owners: seq<Owner>, lastName: string): (r: seq<Owner>)
    ensures forall o :: o in r <==> o in owners && o.lastName == lastName
  {
    var named := (o: Owner) => o.lastName == lastName;
    forall o ensures o in Filter(owners, named) <==> o in owners && o.lastName == lastName {
      FilterMembers(owners, named, o);
    }
    Filter(owners, named)
  }

  /** Error message for a row that does not have five fields. */
  function SizeMessage(size: nat): string {
    "The amount of elements is " + NatToString(size) + " in this data row is not five."
  }

  /** Error message for a birth date the date format rejects. */
  function BirthdayMessage(birthday: string): string {
    "The birthday data " + birthday + " is not valid!"
  }

  /** Error message for a type field that is not a key of the type map. */
  function PetTypeMessage(petTypeString: string): string {
    "The pet type " + petTypeString + " was not defined in the clinic pet types."
  }

  /** Error message for an owner name that matches no owner. */
  function OwnerNotFoundMessage(owner: string): string {
    "Owner not found: " + owner
  }

  /** Error message for an owner name that matches several owners. */
  function OwnerNotUniqueMessage(owner: string): string {
    "Owner not unique: " + owner
  }

  /** Error message for an action field that is neither add, delete nor empty. */
  function ActionMessage(action: string): string {
    "Unknown pet action: " + action
  }

  /** Every check of parsePetRow passes on `dataRow`. */
  predicate RowAccepted(dataRow: seq<string>, petTypeMap: map<string, PetType>, petOwners: seq<Owner>,
                        parseDate: string -> Option<Date>)
  {
    && |dataRow| == 5
    && parseDate(dataRow[1]).Some?
    && dataRow[2] in petTypeMap
    && |OwnersNamed(petOwners, dataRow[3])| == 1
    && ParseClinicPetAction(dataRow[4]).Some?
  }

  /**
   * parsePetRow: exactly five fields, then the date, the type, the owner and the action are
   * checked in that order, and the first check that fails decides the error.
   */
  function ParsePetRow(dataRow: seq<string>, petTypeMap: map<string, PetType>, petOwners: seq<Owner>,
                       parseDate: string -> Option<Date>): (r: Result<PetRowResult, string>)
    ensures r.Success? <==> RowAccepted(dataRow, petTypeMap, petOwners, parseDate)
    ensures r.Success? ==>
      var pet := r.value.pet;
      && pet.name == dataRow[0]
      && parseDate(dataRow[1]) == Some(pet.birthDate)
      && pet.petType == petTypeMap[dataRow[2]]
      && pet.owner in petOwners && pet.owner.lastName == dataRow[3]
      && OwnersNamed(petOwners, dataRow[3]) == [pet.owner]
      && ParseClinicPetAction(dataRow[4]) == Some(r.value.action)
    ensures |dataRow| != 5 ==> r == Failure(SizeMessage(|dataRow|))
    ensures |dataRow| == 5 && parseDate(dataRow[1]).None? ==>
      r == Failure(BirthdayMessage(dataRow[1]))
    ensures |dataRow| == 5 && parseDate(dataRow[1]).Some? && dataRow[2] !in petTypeMap ==>
      r == Failure(PetTypeMessage(dataRow[2]))
    ensures |dataRow| == 5 && parseDate(dataRow[1]).Some? && dataRow[2] in petTypeMap ==>
      (|OwnersNamed(petOwners, dataRow[3])| == 0 ==> r == Failure(OwnerNotFoundMessage(dataRow[3]))) &&
      (|OwnersNamed(petOwners, dataRow[3])| > 1 ==> r == Failure(OwnerNotUniqueMessage(dataRow[3])))
    ensures |dataRow| == 5 && parseDate(dataRow[1]).Some? && dataRow[2] in petTypeMap &&
            |OwnersNamed(petOwners, dataRow[3])| == 1 && ParseClinicPetAction(dataRow[4]).None? ==>
      r == Failure(ActionMessage(dataRow[4]))
  {
    if |dataRow| != 5 then Failure(SizeMessage(|dataRow|))
    else
      var birthday := dataRow[1];
      match parseDate(birthday)
      case None => Failure(BirthdayMessage(birthday))
      case Some(birthDate) =>
        var petTypeString := dataRow[2];
        if petTypeString !in petTypeMap then
          Failure(PetTypeMessage(petTypeString))
        else
          var owner := dataRow[3];
          var matchingOwners := OwnersNamed(petOwners, owner);
          if |matchingOwners| == 0 then Failure(OwnerNotFoundMessage(owner))
          else if |matchingOwners| > 1 then Failure(OwnerNotUniqueMessage(owner))
          else
            assert matchingOwners[0] in matchingOwners;
            var pet := Pet(dataRow[0], birthDate, petTypeMap[petTypeString], matchingOwners[0]);
            var clinicPetAction := dataRow[4];
            match ParseClinicPetAction(clinicPetAction)
            case Some(action) => Success(PetRowResult(pet, action))
            case None => Failure(ActionMessage(clinicPetAction))
  }

  /** The map importPets builds: each type under its lower-cased name, a later type replacing an earlier one. */
  function PetTypeMap(petTypes: seq<PetType>): map<string, PetType>
    decreases |petTypes|
  {
    if petTypes == [] then map[]
    else
      var last := petTypes[|petTypes| - 1];
      PetTypeMap(petTypes[..|petTypes| - 1])[ToLower(last.name) := last]
  }

  /** The loop of importPets that fills the pet type map from findPetTypes(). */
  method BuildPetTypeMap(petTypes: seq<PetType>) returns (petTypeMap: map<string, PetType>)
    ensures petTypeMap == PetTypeMap(petTypes)
  {
    petTypeMap := map[];
    for i := 0 to |petTypes|
      invariant petTypeMap == PetTypeMap(petTypes[..i])
    {
      assert petTypes[..i + 1][..i] == petTypes[..i];
      petTypeMap := petTypeMap[ToLower(petTypes[i].name) := petTypes[i]];
    }
    assert petTypes[..|petTypes|] == petTypes;
  }

  // ---------------------------------------------------------------------------------------
  // Identity matching and delete
  // ---------------------------------------------------------------------------------------

  /** arePetsEqual: same name, same type id and same birth date. */
  predicate ArePetsEqual(pet1: Pet, pet2: Pet) {
    pet2.name == pet1.name && pet2.petType.id == pet1.petType.id && pet2.birthDate == pet1.birthDate
  }

  /** A stored pet that a delete of `pet` removes: one of its owner's pets equal to it. */
  predicate DeletedBy(pet: Pet, stored: Pet) {
    stored.owner == pet.owner && ArePetsEqual(pet, stored)
  }

  /** The store after deleting `pet`: everything except the pets DeletedBy it. */
  function PetsAfterDelete(pets: seq<Pet>, pet: Pet): seq<Pet> {
    DeleteOwnerMatches(pets, pet.owner, (x: Pet) => ArePetsEqual(pet, x))
  }

  /**
   * removePetFromClinicService: walks the owner's pets (as they were before the first delete)
   * and deletes each one equal to `pet`.
   */
  method RemovePetFromClinicService(clinic: ClinicService, pet: Pet)
    modifies clinic
    ensures clinic.pets == PetsAfterDelete(old(clinic.pets), pet)
  {
    ghost var before := clinic.pets;
    ghost var matches := (x: Pet) => ArePetsEqual(pet, x);
    var ownerPets := OwnerPets(clinic.pets, pet.owner);
    AfterVisitingNone(before, matches);
    for k := 0 to |ownerPets|
      invariant clinic.pets == AfterVisiting(before, matches, ownerPets[..k])
    {
      var sameOwnerPet := ownerPets[k];
      assert ownerPets[..k + 1] == ownerPets[..k] + [sameOwnerPet];
      if ArePetsEqual(pet, sameOwnerPet) {
        AfterVisitingMatch(before, matches, ownerPets[..k], sameOwnerPet);
        clinic.DeletePet(sameOwnerPet);
      } else {
        AfterVisitingSkip(before, matches, ownerPets[..k], sameOwnerPet);
      }
    }
    assert ownerPets[..|ownerPets|] == ownerPets;
    AfterVisitingOwner(before, pet.owner, matches);
  }

  // ---------------------------------------------------------------------------------------
  // Batch
  // ---------------------------------------------------------------------------------------

  /** The store after applying one validated row. */
  function ApplyRow(pets: seq<Pet>, row: PetRowResult): seq<Pet> {
    match row.action
    case ADD => pets + [row.pet]
    case DELETE => PetsAfterDelete(pets, row.pet)
  }

  /** Put the pets of rows already done in front of the outcome of the remaining rows. */
  function Prepend(done: seq<Pet>, rest: BatchOutcome): BatchOutcome {
    (if rest.0.Success? then Success(done + rest.0.value) else rest.0, rest.1)
  }

  /** The batch by value: rows in order, each applied when valid, the first invalid one aborting. */
  function RunImport(rows: seq<seq<string>>, petTypeMap: map<string, PetType>, petOwners: seq<Owner>,
                     parseDate: string -> Option<Date>, pets: seq<Pet>): BatchOutcome
    decreases |rows|
  {
    if rows == [] then (Success([]), pets)
    else
      match ParsePetRow(rows[0], petTypeMap, petOwners, parseDate)
      case Failure(message) => (Failure(message), pets)
      case Success(row) =>
        Prepend([row.pet], RunImport(rows[1..], petTypeMap, petOwners, parseDate, ApplyRow(pets, row)))
  }

  /** One step of the batch, seen from row `i` on. */
  lemma RunImportAt(rows: seq<seq<string>>, i: nat, petTypeMap: map<string, PetType>, petOwners: seq<Owner>,
                    parseDate: string -> Option<Date>, pets: seq<Pet>, done: seq<Pet>)
    requires i < |rows|
    ensures var here := ParsePetRow(rows[i], petTypeMap, petOwners, parseDate);
            Prepend(done, RunImport(rows[i..], petTypeMap, petOwners, parseDate, pets)) ==
              if here.Failure? then (Failure(here.error), pets)
              else Prepend(done + [here.value.pet],
                           RunImport(rows[i + 1..], petTypeMap, petOwners, parseDate, ApplyRow(pets, here.value)))
  {
    assert rows[i..][0] == rows[i];
    assert rows[i..][1..] == rows[i + 1..];
    var here := ParsePetRow(rows[i], petTypeMap, petOwners, parseDate);
    if here.Success? {
      var rest := RunImport(rows[i + 1..], petTypeMap, petOwners, parseDate, ApplyRow(pets, here.value));
      if rest.0.Success? {
        assert done + ([here.value.pet] + rest.0.value) == (done + [here.value.pet]) + rest.0.value;
      }
    }
  }

  /**
   * importPets: tokenizes, builds the type map, then validates and applies the rows one by one;
   * the first invalid row ends the batch with its message, earlier rows staying applied.
   */
  method ImportPets(clinic: ClinicService, csv: string, petTypes: seq<PetType>, petOwners: seq<Owner>,
                    parseDate: string -> Option<Date>) returns (r: Result<seq<Pet>, string>)
    modifies clinic
    ensures (r, clinic.pets) == RunImport(Tokenize(csv), PetTypeMap(petTypes), petOwners, parseDate, old(clinic.pets))
  {
    var pets: seq<Pet> := [];
    var dataElements := ReadNextFieldCsv(csv);
    var petTypeMap := BuildPetTypeMap(petTypes);
    ghost var rows := Tokenize(csv);
    ghost var goal := RunImport(rows, petTypeMap, petOwners, parseDate, clinic.pets);
    assert rows[0..] == rows;
    assert Prepend([], goal) == goal by {
      if goal.0.Success? {
        assert [] + goal.0.value == goal.0.value;
      }
    }
    for i := 0 to |dataElements|
      invariant forall k :: 0 <= k < |dataElements| ==> dataElements[k].items == rows[k]
      invariant Prepend(pets, RunImport(rows[i..], petTypeMap, petOwners, parseDate, clinic.pets)) == goal
    {
      var dataRow := dataElements[i].items;
      RunImportAt(rows, i, petTypeMap, petOwners, parseDate, clinic.pets, pets);
      var petRowResult := ParsePetRow(dataRow, petTypeMap, petOwners, parseDate);
      if petRowResult.Failure? {
        return Failure(petRowResult.error);
      }
      var row := petRowResult.value;
      match row.action {
        case ADD =>
          clinic.SavePet(row.pet);
        case DELETE =>
          RemovePetFromClinicService(clinic, row.pet);
      }
      pets := pets + [row.pet];
    }
    assert rows[|dataElements|..] == [];
    assert pets + [] == pets;
    return Success(pets);
  }
}
