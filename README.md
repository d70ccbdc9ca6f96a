# Pet import of the Spring PetClinic REST service, in Dafny

This project models the two CSV pet importers of the PetClinic REST service and proves
properties about them. Both importers turn `;`/newline-delimited text into "add pet" and
"delete pet" actions and apply them, in order, to the clinic's pet store.

- **ImportCSV** (`import_csv.dfy`, properties in `import_csv_properties.dfy`) is the original importer:
  - `readNextFieldCSV` is a character-loop tokenizer. It is modelled as a method whose loop builds `FieldList` row objects in place.
  - `parsePetRow` checks that a row has exactly five fields, then checks the date, type, owner and action in that order.
  - `arePetsEqual` and `removePetFromClinicService` delete every pet of the owner that has the same name, type id and birth date.
  - `importPets` builds the type map once, then validates and applies rows one at a time until the first bad row.
- **ImportCSVRefactored** (`import_csv_refactored.dfy`, properties in `import_csv_refactored_properties.dfy`) is the refactored importer:
  - `SimpleCSVParser` (`simple_csv_parser.dfy`) is a class over the text its Scanner has not yet read. Each record it returns is `String.split(";")` of the next line.
  - The readers advance a `RecordIterator` object over the record and fill a `PetActionDTO` (`pet_action_dto.dfy`) through its setters.
  - `applyAction` saves a pet, or deletes the owner's pets with the same name, type and birth date.
  - `parsePetActions` is the batch loop.
- **Shared modules.** `clinic.dfy` holds the entities (`Date`, `PetType`, `Owner`, `Pet`) and a `ClinicService` class, which reduces the persistence service to the sequence of pets it stores. `text.dfy` and `collections.dfy` hold the string and sequence helpers. `wrappers.dfy` holds `Option` and `Result`.

Each loop of the source is a Dafny method. The method is proved against a by-value specification function:
- `Tokenize` for `readNextFieldCSV`;
- `RunImport` and `RunActions` for the two batch loops;
- `ReadRecord` for the readers;
- `ActionEffect` and `PetsAfterDelete` for the delete loops.

The lemmas prove the promised properties about those functions. An exception becomes a `Failure(message)` that carries the exception's message. The HTTP responses become the `Result` the batch function returns.

Quirks of the source are modelled as written and proved:
- `readNextFieldCSV` puts its first row into the result twice. A one-line ADD input therefore saves its pet twice.
- A `;` that is the last character of the input opens no empty field.
- Empty input gives one empty row, so `importPets` rejects it.
- `String.split` drops trailing empty fields.
- `readType` lower-cases only the stored type names, so "Dog" never matches.
- An empty action field depends on where it stands.
  - Refactored importer: a trailing `;` (`fifi;2012-02-21;dog;Franklin;`) is dropped by the split, so the record has four fields and reads as ADD. Only an empty fifth field followed by another field (`...;Franklin;;x`) gives "Unknown action".
  - Original importer: `;` right before `\n` leaves an empty fifth field, which means ADD. The same trailing `;` at the very end of the input leaves four fields and the size error.

On these points the model follows the code exactly, even where a reader might expect otherwise:
- No field is trimmed.
- The original importer demands exactly five fields, not four or five.
- The refactored importer ignores fields after the fifth.
- The type field is compared case-sensitively with the lower-cased names.
- Blank input fails in the original importer.

## Model

| member | source | states |
|---|---|---|
| Clinic.OwnerPets | src/main/java/org/springframework/samples/petclinic/rest/importcsv/ImportCSV.java:116 | Owner.getPets() as a snapshot of the store: a pet is listed exactly when it is stored and belongs to the owner |
| Clinic.Without | src/main/java/org/springframework/samples/petclinic/rest/importcsv/ImportCSV.java:118 | what deletePet leaves: the pet is gone and every other pet keeps its multiplicity |
| Clinic.DeleteOwnerMatches | src/main/java/org/springframework/samples/petclinic/rest/importcsv/ImportCSV.java:115-121 | deleting the matching pets of one owner: exactly those pets are gone, every other pet keeps its multiplicity |
| Clinic.DeleteOwnerMatchesNothing | src/main/java/org/springframework/samples/petclinic/rest/importcsv/ImportCSV.java:115-121 | a delete that matches none of the owner's pets leaves the store unchanged |
| Clinic.AfterVisitingOwner | src/main/java/org/springframework/samples/petclinic/rest/importcsv/ImportCSV.java:116-120 | walking the owner's pets as they were before the first delete and deleting each match gives exactly DeleteOwnerMatches |
| Clinic.ClinicService.SavePet | src/main/java/org/springframework/samples/petclinic/rest/importcsv/ImportCSV.java:149 | savePet appends the new pet to the store |
| Clinic.ClinicService.DeletePet | src/main/java/org/springframework/samples/petclinic/rest/importcsv/ImportCSV.java:118 | deletePet removes the pet and changes nothing else |
| ImportCsv.FieldList.constructor | src/main/java/org/springframework/samples/petclinic/rest/importcsv/ImportCSV.java:46 | a new row list is empty |
| ImportCsv.FieldList.Add | src/main/java/org/springframework/samples/petclinic/rest/importcsv/ImportCSV.java:54-57 | adding a field appends it and keeps the fields before it |
| ImportCsv.RowsOf | src/main/java/org/springframework/samples/petclinic/rest/importcsv/ImportCSV.java:59-61 | one row per complete line |
| ImportCsv.RowsOfAt | src/main/java/org/springframework/samples/petclinic/rest/importcsv/ImportCSV.java:53-61 | row k of the complete lines holds exactly the `;`-pieces of line k |
| ImportCsv.ScanNext | src/main/java/org/springframework/samples/petclinic/rest/importcsv/ImportCSV.java:50-62 | one loop iteration never moves the field start past the character just read |
| ImportCsv.ScanAfter | src/main/java/org/springframework/samples/petclinic/rest/importcsv/ImportCSV.java:49-63 | after i characters the field start is at most i |
| ImportCsv.ScanStepNewline | src/main/java/org/springframework/samples/petclinic/rest/importcsv/ImportCSV.java:50-61 | reading `\n` closes the field and the row: the loop state keeps its meaning |
| ImportCsv.ScanStepSeparator | src/main/java/org/springframework/samples/petclinic/rest/importcsv/ImportCSV.java:52-55 | reading `;` closes the field (and the row when it is the last character): the loop state keeps its meaning |
| ImportCsv.ScanStepOther | src/main/java/org/springframework/samples/petclinic/rest/importcsv/ImportCSV.java:51-62 | any other character extends the open field, and at the end closes field and row: the loop state keeps its meaning |
| ImportCsv.LastCharacterOther | src/main/java/org/springframework/samples/petclinic/rest/importcsv/ImportCSV.java:56-61 | a last character that is neither `;` nor `\n` ends the last field and the last row |
| ImportCsv.ScanAfterMeaning | src/main/java/org/springframework/samples/petclinic/rest/importcsv/ImportCSV.java:49-63 | after every prefix the loop variables hold the rows of the complete lines, the closed fields and the start of the open field |
| ImportCsv.TokenizeFromScan | src/main/java/org/springframework/samples/petclinic/rest/importcsv/ImportCSV.java:45-64 | the final loop state gives the result: the first row in front of all closed rows, or one empty row for empty input |
| ImportCsv.Tokenize | src/main/java/org/springframework/samples/petclinic/rest/importcsv/ImportCSV.java:44-65 | by value, what readNextFieldCSV returns; its row count, field contents and the duplicated first row are stated by TokenizeRowCount, TokenizeFieldsClean, TokenizeFirstRowTwice, FinalSeparatorDropsEmptyField and SeparatorBeforeNewlineKeepsEmptyField |
| ImportCsv.ReadNextFieldCsv | src/main/java/org/springframework/samples/petclinic/rest/importcsv/ImportCSV.java:44-65 | the returned rows hold, one by one, the fields of the reference tokenization, and for non-empty input rows 0 and 1 are the same list object |
| ImportCsv.OwnersNamed | src/main/java/org/springframework/samples/petclinic/rest/importcsv/ImportCSV.java:89 | the owners kept are exactly those whose last name equals the field |
| ImportCsv.ParseClinicPetAction | src/main/java/org/springframework/samples/petclinic/rest/importcsv/ImportCSV.java:97-106 | the action switch; ClinicActionField states its cases (ADD for "add" in any case or "", DELETE for "delete") |
| ImportCsv.ParsePetRow | src/main/java/org/springframework/samples/petclinic/rest/importcsv/ImportCSV.java:67-107 | accepted iff every check passes; size, then date, then type, then owner (none / several), then action, the first failure giving its message; an accepted row carries the name, parsed date, mapped type, unique owner and action |
| ImportCsv.BuildPetTypeMap | src/main/java/org/springframework/samples/petclinic/rest/importcsv/ImportCSV.java:133-136 | the loop builds the map that keys each type by its lower-cased name, later types replacing earlier ones |
| ImportCsv.PetTypeMap | src/main/java/org/springframework/samples/petclinic/rest/importcsv/ImportCSV.java:133-136 | the type map by value; PetTypeMapKeys and PetTypeMapLast state its keys and that a later type overwrites an earlier one |
| ImportCsv.RemovePetFromClinicService | src/main/java/org/springframework/samples/petclinic/rest/importcsv/ImportCSV.java:115-121 | the store afterwards is the store with the owner's pets equal to the given pet removed |
| ImportCsv.PetsAfterDelete | src/main/java/org/springframework/samples/petclinic/rest/importcsv/ImportCSV.java:115-121 | by value, the store after removePetFromClinicService; DeleteRemovesMatching states that exactly the owner's pets equal to the given pet are gone and every other pet keeps its multiplicity, DeleteWithoutMatchIsNoop that a delete without a match changes nothing |
| ImportCsv.ApplyRow | src/main/java/org/springframework/samples/petclinic/rest/importcsv/ImportCSV.java:147-154 | the switch on the row's action: ADD appends the pet (savePet), DELETE gives PetsAfterDelete; RunImportAllAccepted and RunImportStopsAtFirstRejected state the store through it; the default branch cannot be reached, since the action has only the two values ActionValuesExactly lists |
| ImportCsv.ArePetsEqual | src/main/java/org/springframework/samples/petclinic/rest/importcsv/ImportCSV.java:109-113 | same name, same type id and same birth date; ArePetsEqualEquivalence states it is an equivalence |
| ImportCsv.RunImport | src/main/java/org/springframework/samples/petclinic/rest/importcsv/ImportCSV.java:140-158 | the batch by value; RunImportSucceedsIff, RunImportAllAccepted and RunImportStopsAtFirstRejected state its outcome |
| ImportCsv.RunImportAt | src/main/java/org/springframework/samples/petclinic/rest/importcsv/ImportCSV.java:140-158 | one step of the batch: the row from position i either aborts with its message or is applied and put in front of the rest |
| ImportCsv.ImportPets | src/main/java/org/springframework/samples/petclinic/rest/importcsv/ImportCSV.java:128-161 | result and final store are those of the by-value batch over the tokenized input, the type map and the owners |
| ImportCsvProperties.ClosedPiecesCount | src/main/java/org/springframework/samples/petclinic/rest/importcsv/ImportCSV.java:53-55 | one closed field per separator |
| ImportCsvProperties.ClosedPiecesPrefix | src/main/java/org/springframework/samples/petclinic/rest/importcsv/ImportCSV.java:49-58 | the fields closed in a prefix of the input are a prefix of those closed in the whole |
| ImportCsvProperties.TokenizeRowCount | src/main/java/org/springframework/samples/petclinic/rest/importcsv/ImportCSV.java:45-62 | the result has 1 + (number of `\n`) + (1 if the input is non-empty and does not end in `\n`) rows |
| ImportCsvProperties.TokenizeFirstRowTwice | src/main/java/org/springframework/samples/petclinic/rest/importcsv/ImportCSV.java:47-60 | for non-empty input rows 0 and 1 are equal |
| ImportCsvProperties.TokenizeEmpty | src/main/java/org/springframework/samples/petclinic/rest/importcsv/ImportCSV.java:45-47 | empty input gives one empty row |
| ImportCsvProperties.SubstringAvoids | src/main/java/org/springframework/samples/petclinic/rest/importcsv/ImportCSV.java:54-57 | a part of a text without a character has no such character |
| ImportCsvProperties.LineFieldsClean | src/main/java/org/springframework/samples/petclinic/rest/importcsv/ImportCSV.java:53-55 | the fields of a line are parts of the input free of `;` and `\n` |
| ImportCsvProperties.ClosedRowsFieldsClean | src/main/java/org/springframework/samples/petclinic/rest/importcsv/ImportCSV.java:49-62 | every field of every closed row is a part of the input free of `;` and `\n` |
| ImportCsvProperties.TokenizeFieldsClean | src/main/java/org/springframework/samples/petclinic/rest/importcsv/ImportCSV.java:44-65 | every field readNextFieldCSV produces is a substring of the input containing neither `;` nor `\n` |
| ImportCsvProperties.FinalSeparatorDropsEmptyField | src/main/java/org/springframework/samples/petclinic/rest/importcsv/ImportCSV.java:53-62 | a `;` as the very last character yields no empty field after it |
| ImportCsvProperties.SeparatorBeforeNewlineKeepsEmptyField | src/main/java/org/springframework/samples/petclinic/rest/importcsv/ImportCSV.java:53-61 | a `;` right before `\n` does yield an empty last field in that row |
| ImportCsvProperties.PetTypeMapKeys | src/main/java/org/springframework/samples/petclinic/rest/importcsv/ImportCSV.java:133-136 | a key of the type map is exactly a lower-cased type name |
| ImportCsvProperties.PetTypeMapLast | src/main/java/org/springframework/samples/petclinic/rest/importcsv/ImportCSV.java:133-136 | under a key the map holds the last type with that lower-cased name |
| ImportCsvProperties.ClinicActionField | src/main/java/org/springframework/samples/petclinic/rest/importcsv/ImportCSV.java:97-106 | the action field means ADD iff it lower-cases to "add" or is empty, DELETE iff it lower-cases to "delete" |
| ImportCsvProperties.UpperCaseTypeNeverResolves | src/main/java/org/springframework/samples/petclinic/rest/importcsv/ImportCSV.java:80-86 | a type field containing an upper-case letter is never a key of the map |
| ImportCsvProperties.ArePetsEqualEquivalence | src/main/java/org/springframework/samples/petclinic/rest/importcsv/ImportCSV.java:109-113 | arePetsEqual is reflexive, symmetric and transitive |
| ImportCsvProperties.DeleteRemovesMatching | src/main/java/org/springframework/samples/petclinic/rest/importcsv/ImportCSV.java:115-121 | a delete keeps exactly the pets that are not the owner's pets equal to it, each with its multiplicity |
| ImportCsvProperties.DeleteWithoutMatchIsNoop | src/main/java/org/springframework/samples/petclinic/rest/importcsv/ImportCSV.java:115-121 | a delete matching no stored pet leaves the store unchanged |
| ImportCsvProperties.AcceptedRows | src/main/java/org/springframework/samples/petclinic/rest/importcsv/ImportCSV.java:140-143 | the results of a batch of accepted rows, one per row, each the row's parse result |
| ImportCsvProperties.RunImportSucceedsIff | src/main/java/org/springframework/samples/petclinic/rest/importcsv/ImportCSV.java:140-158 | the batch succeeds exactly when every row is accepted |
| ImportCsvProperties.RunImportAllAccepted | src/main/java/org/springframework/samples/petclinic/rest/importcsv/ImportCSV.java:140-159 | when all rows are accepted the result lists one pet per row in row order and the store has every row applied in order |
| ImportCsvProperties.RunImportStopsAtFirstRejected | src/main/java/org/springframework/samples/petclinic/rest/importcsv/ImportCSV.java:140-146 | the first rejected row ends the batch with its message, the rows before it staying applied |
| ImportCsvProperties.EmptyInputFails | src/main/java/org/springframework/samples/petclinic/rest/importcsv/ImportCSV.java:68-70 | empty input fails with the size message for 0 fields and changes nothing |
| ImportCsvProperties.TokenizeSingleLine | src/main/java/org/springframework/samples/petclinic/rest/importcsv/ImportCSV.java:44-65 | one unterminated line is tokenized into its row, twice |
| ImportCsvProperties.RunImportSameAddTwice | src/main/java/org/springframework/samples/petclinic/rest/importcsv/ImportCSV.java:140-158 | a batch of the same valid ADD row twice saves its pet twice and returns it twice |
| ImportCsvProperties.SingleAddLineSavedTwice | src/main/java/org/springframework/samples/petclinic/rest/importcsv/ImportCSV.java:128-161 | an input of one valid ADD line saves that pet twice and returns it twice |
| SimpleCsv.AfterFirstLine | src/main/java/org/springframework/samples/petclinic/rest/importcsv/refactored/SimpleCSVParser.java:21 | reading a line from non-empty input leaves strictly less input |
| SimpleCsv.IsWhitespace | src/main/java/org/springframework/samples/petclinic/rest/importcsv/refactored/SimpleCSVParser.java:13 | Character.isWhitespace, the default delimiter of the Scanner built here; HasTokenMeans and TrailingBlankLinesIgnored state hasNextRecord and the records through it |
| SimpleCsv.HasToken | src/main/java/org/springframework/samples/petclinic/rest/importcsv/refactored/SimpleCSVParser.java:16-18 | Scanner.hasNext; HasTokenMeans states it holds iff some character is not whitespace, HasTokenAppend that a concatenation has a token iff one of its parts has |
| SimpleCsv.FirstLine | src/main/java/org/springframework/samples/petclinic/rest/importcsv/refactored/SimpleCSVParser.java:21 | the text Scanner.nextLine returns; LineSplit states it has no `\n` and the input is this line, its `\n` if any, then the rest, LinesOfFirstLine that the input's lines are this line followed by the lines of the rest, and TokensOfFirstLine that the input has a token iff this line or the rest has |
| SimpleCsv.JavaSplit | src/main/java/org/springframework/samples/petclinic/rest/importcsv/refactored/SimpleCSVParser.java:22 | String.split(";"); JavaSplitFieldsFree, JavaSplitNoSeparator, JavaSplitKeepsLeadingPieces, JavaSplitJoin, JavaSplitFieldCount and JavaSplitOfJoinedFields state its fields |
| SimpleCsv.Records | src/main/java/org/springframework/samples/petclinic/rest/importcsv/refactored/SimpleCSVParser.java:16-24 | the records a fresh parser yields while hasNextRecord holds; RecordsByLines and TrailingBlankLinesIgnored state them line by line |
| SimpleCsv.SimpleCsvParser.constructor | src/main/java/org/springframework/samples/petclinic/rest/importcsv/refactored/SimpleCSVParser.java:12-14 | the whole input is unread |
| SimpleCsv.SimpleCsvParser.HasNextRecord | src/main/java/org/springframework/samples/petclinic/rest/importcsv/refactored/SimpleCSVParser.java:16-18 | true exactly when a non-whitespace character is left |
| SimpleCsv.SimpleCsvParser.NextRecord | src/main/java/org/springframework/samples/petclinic/rest/importcsv/refactored/SimpleCSVParser.java:20-24 | consumes one line and returns its split; line, `\n` and rest spell the old input |
| SimpleCsv.HasTokenMeans | src/main/java/org/springframework/samples/petclinic/rest/importcsv/refactored/SimpleCSVParser.java:16-18 | a token is left exactly when some character is not whitespace |
| SimpleCsv.HasTokenAppend | src/main/java/org/springframework/samples/petclinic/rest/importcsv/refactored/SimpleCSVParser.java:16-18 | a concatenation has a token iff one of its parts has |
| SimpleCsv.LineSplit | src/main/java/org/springframework/samples/petclinic/rest/importcsv/refactored/SimpleCSVParser.java:21 | the line has no `\n`, and line, `\n` and the rest spell the input |
| SimpleCsv.DropTrailingEmptyPrefix | src/main/java/org/springframework/samples/petclinic/rest/importcsv/refactored/SimpleCSVParser.java:22 | dropping trailing empty pieces keeps a prefix and drops only empty pieces |
| SimpleCsv.DropTrailingEmptySplitOn | src/main/java/org/springframework/samples/petclinic/rest/importcsv/refactored/SimpleCSVParser.java:22 | dropping trailing empty pieces equals splitting the line without its trailing `;`s |
| SimpleCsv.JavaSplitFieldsFree | src/main/java/org/springframework/samples/petclinic/rest/importcsv/refactored/SimpleCSVParser.java:22 | no returned field contains `;` |
| SimpleCsv.JavaSplitNoSeparator | src/main/java/org/springframework/samples/petclinic/rest/importcsv/refactored/SimpleCSVParser.java:22 | a line without `;` is one field, the whole line; the empty line gives [""] |
| SimpleCsv.JavaSplitKeepsLeadingPieces | src/main/java/org/springframework/samples/petclinic/rest/importcsv/refactored/SimpleCSVParser.java:22 | leading and interior empty fields are kept |
| SimpleCsv.JavaSplitJoin | src/main/java/org/springframework/samples/petclinic/rest/importcsv/refactored/SimpleCSVParser.java:21-23 | joining the fields with `;` gives the line without its trailing `;`s |
| SimpleCsv.JavaSplitFieldCount | src/main/java/org/springframework/samples/petclinic/rest/importcsv/refactored/SimpleCSVParser.java:22 | the number of fields: none for a line of `;`s only, else one more than the `;`s before the trailing run |
| SimpleCsv.JavaSplitOfJoinedFields | src/main/java/org/springframework/samples/petclinic/rest/importcsv/refactored/SimpleCSVParser.java:22 | splitting fields joined by `;` (last one non-empty) gives the fields back |
| SimpleCsv.JavaSplitOnlySeparators | src/main/java/org/springframework/samples/petclinic/rest/importcsv/refactored/SimpleCSVParser.java:22 | a line of `;` only, such as ";;", gives no fields |
| SimpleCsv.StripTrailingOnlySeparators | src/main/java/org/springframework/samples/petclinic/rest/importcsv/refactored/SimpleCSVParser.java:22 | stripping trailing `;`s from a line of `;`s leaves nothing |
| SimpleCsv.AnyTokenCons | src/main/java/org/springframework/samples/petclinic/rest/importcsv/refactored/SimpleCSVParser.java:16-18 | lines have a token iff the first or one of the others has |
| SimpleCsv.LinesOfFirstLine | src/main/java/org/springframework/samples/petclinic/rest/importcsv/refactored/SimpleCSVParser.java:21 | the lines of the input are its first line followed by the lines of the rest |
| SimpleCsv.TokensOfFirstLine | src/main/java/org/springframework/samples/petclinic/rest/importcsv/refactored/SimpleCSVParser.java:16-21 | the input has a token iff its first line or the rest has |
| SimpleCsv.RecordsByLines | src/main/java/org/springframework/samples/petclinic/rest/importcsv/refactored/SimpleCSVParser.java:16-24 | the records the parser yields are the splits of the `\n`-separated lines, up to the last line with a token |
| SimpleCsv.RecordsOfLinesBlankTail | src/main/java/org/springframework/samples/petclinic/rest/importcsv/refactored/SimpleCSVParser.java:16-18 | blank lines after the last line add no records |
| SimpleCsv.TrailingBlankLinesIgnored | src/main/java/org/springframework/samples/petclinic/rest/importcsv/refactored/SimpleCSVParser.java:16-18 | trailing blank lines produce no records |
| PetActionDto.ActionValuesExactly | src/main/java/org/springframework/samples/petclinic/rest/importcsv/refactored/PetActionDTO.java:15-18 | Action has exactly the two values ADD and DELETE, each listed once |
| PetActionDto.ActionName | src/main/java/org/springframework/samples/petclinic/rest/importcsv/refactored/PetActionDTO.java:15-18 | Action.toString(), the constant's name, as compared by readOptionalAction; FindActionIgnoresCase states the resulting matching |
| PetActionDto.PetActionDTO.constructor | src/main/java/org/springframework/samples/petclinic/rest/importcsv/refactored/PetActionDTO.java:9-13 | a new DTO has all five fields unset |
| PetActionDto.PetActionDTO.GetName | src/main/java/org/springframework/samples/petclinic/rest/importcsv/refactored/PetActionDTO.java:20-22 | the name field; SetName states that it returns the value set |
| PetActionDto.PetActionDTO.GetType | src/main/java/org/springframework/samples/petclinic/rest/importcsv/refactored/PetActionDTO.java:28-30 | the type field; SetType states that it returns the value set |
| PetActionDto.PetActionDTO.GetBirthDate | src/main/java/org/springframework/samples/petclinic/rest/importcsv/refactored/PetActionDTO.java:36-38 | the date-of-birth field; SetDateOfBirth states that it returns the value set |
| PetActionDto.PetActionDTO.GetOwner | src/main/java/org/springframework/samples/petclinic/rest/importcsv/refactored/PetActionDTO.java:44-46 | the owner field; SetOwner states that it returns the value set |
| PetActionDto.PetActionDTO.GetAction | src/main/java/org/springframework/samples/petclinic/rest/importcsv/refactored/PetActionDTO.java:52-54 | the action field; SetAction states that it returns the value set |
| PetActionDto.PetActionDTO.SetName | src/main/java/org/springframework/samples/petclinic/rest/importcsv/refactored/PetActionDTO.java:20-26 | getName returns the value set; the other four fields are unchanged |
| PetActionDto.PetActionDTO.SetType | src/main/java/org/springframework/samples/petclinic/rest/importcsv/refactored/PetActionDTO.java:28-34 | getType returns the value set; the other four fields are unchanged |
| PetActionDto.PetActionDTO.SetDateOfBirth | src/main/java/org/springframework/samples/petclinic/rest/importcsv/refactored/PetActionDTO.java:36-42 | getBirthDate returns the value passed to setDateOfBirth; the other four fields are unchanged |
| PetActionDto.PetActionDTO.SetOwner | src/main/java/org/springframework/samples/petclinic/rest/importcsv/refactored/PetActionDTO.java:44-50 | getOwner returns the value set; the other four fields are unchanged |
| PetActionDto.PetActionDTO.SetAction | src/main/java/org/springframework/samples/petclinic/rest/importcsv/refactored/PetActionDTO.java:52-58 | getAction returns the value set; the other four fields are unchanged |
| PetActionDto.PetActionDTO.Value | src/main/java/org/springframework/samples/petclinic/rest/importcsv/refactored/PetActionDTO.java:20-58 | the contents of a complete DTO agree with its five getters |
| ImportCsvRefactored.RecordIterator.constructor | src/main/java/org/springframework/samples/petclinic/rest/importcsv/refactored/ImportCSVRefactored.java:70 | the iterator starts at the first field |
| ImportCsvRefactored.RecordIterator.HasNext | src/main/java/org/springframework/samples/petclinic/rest/importcsv/refactored/ImportCSVRefactored.java:80 | true exactly when a field is left |
| ImportCsvRefactored.RecordIterator.Next | src/main/java/org/springframework/samples/petclinic/rest/importcsv/refactored/ImportCSVRefactored.java:83 | returns the first field left and moves past it |
| ImportCsvRefactored.FirstTypeNamed | src/main/java/org/springframework/samples/petclinic/rest/importcsv/refactored/ImportCSVRefactored.java:103-107 | the position of the first type from i on whose lower-cased name is the field, or the end when there is none |
| ImportCsvRefactored.FindType | src/main/java/org/springframework/samples/petclinic/rest/importcsv/refactored/ImportCSVRefactored.java:98-109 | no type iff no lower-cased name equals the field; otherwise the first type whose lower-cased name equals it |
| ImportCsvRefactored.FindAction | src/main/java/org/springframework/samples/petclinic/rest/importcsv/refactored/ImportCSVRefactored.java:131-137 | the action is a iff the name of a equals the field ignoring case |
| ImportCsvRefactored.ReadRecord | src/main/java/org/springframework/samples/petclinic/rest/importcsv/refactored/ImportCSVRefactored.java:67-138 | accepted iff the four fields exist, the date parses, the type is known, the owner is unique and a fifth field names an action; the action then holds those values, ADD when there are four fields |
| ImportCsvRefactored.ReadName | src/main/java/org/springframework/samples/petclinic/rest/importcsv/refactored/ImportCSVRefactored.java:79-84 | "Pet name missing" when no field is left, else the next field unchanged |
| ImportCsvRefactored.ReadDateOfBirth | src/main/java/org/springframework/samples/petclinic/rest/importcsv/refactored/ImportCSVRefactored.java:86-96 | "Date of birth missing" when no field is left; else the parsed date or "Date of birth format invalid" |
| ImportCsvRefactored.ReadType | src/main/java/org/springframework/samples/petclinic/rest/importcsv/refactored/ImportCSVRefactored.java:98-109 | "Pet type missing" when no field is left; else the first type whose lower-cased name is the field, or "Unknown pet type '<field>'" |
| ImportCsvRefactored.FirstTypeNamedAt | src/main/java/org/springframework/samples/petclinic/rest/importcsv/refactored/ImportCSVRefactored.java:103-107 | the search stops at the first matching type |
| ImportCsvRefactored.ReadOwner | src/main/java/org/springframework/samples/petclinic/rest/importcsv/refactored/ImportCSVRefactored.java:111-124 | "Owner name missing" when no field is left; else "Unknown owner" for no match, "Owner name not unique" for several, the single owner otherwise |
| ImportCsvRefactored.ReadOptionalAction | src/main/java/org/springframework/samples/petclinic/rest/importcsv/refactored/ImportCSVRefactored.java:127-138 | ADD when no field is left; else the action named ignoring case, or "Unknown action" |
| ImportCsvRefactored.FillPetAction | src/main/java/org/springframework/samples/petclinic/rest/importcsv/refactored/ImportCSVRefactored.java:71-75 | filling the DTO by the five readers fails with ReadRecord's message, or completes the DTO with ReadRecord's action |
| ImportCsvRefactored.ReadPetAction | src/main/java/org/springframework/samples/petclinic/rest/importcsv/refactored/ImportCSVRefactored.java:67-77 | consumes one line and yields ReadRecord of its split: the first failing reader's message, or a complete new DTO |
| ImportCsvRefactored.ReadRecordSucceeds | src/main/java/org/springframework/samples/petclinic/rest/importcsv/refactored/ImportCSVRefactored.java:67-77 | a record whose checks all pass reads as the action built from its fields |
| ImportCsvRefactored.PetActionToPet | src/main/java/org/springframework/samples/petclinic/rest/importcsv/refactored/ImportCSVRefactored.java:158-165 | the pet has the DTO's name, type, birth date and owner, so a DELETE of the same DTO matches it |
| ImportCsvRefactored.SameEntry | src/main/java/org/springframework/samples/petclinic/rest/importcsv/refactored/ImportCSVRefactored.java:148-150 | the delete match: equal name, type and birth date; DeleteKeepsExactlyOthers states what a DELETE keeps |
| ImportCsvRefactored.ActionEffect | src/main/java/org/springframework/samples/petclinic/rest/importcsv/refactored/ImportCSVRefactored.java:141-156 | the store after one action by value; ApplyAction is proved against it, and DeleteKeepsExactlyOthers, DeleteWithoutMatchIsNoop and AddThenDeleteIsDelete state its properties |
| ImportCsvRefactored.ApplyAction | src/main/java/org/springframework/samples/petclinic/rest/importcsv/refactored/ImportCSVRefactored.java:141-156 | ADD appends the DTO's pet; DELETE removes the owner's pets equal on name, type and birth date |
| ImportCsvRefactored.DeleteOwnerPetsLike | src/main/java/org/springframework/samples/petclinic/rest/importcsv/refactored/ImportCSVRefactored.java:146-154 | the delete loop over the snapshot of the owner's pets removes exactly the matching pets |
| ImportCsvRefactored.ParsePetActions | src/main/java/org/springframework/samples/petclinic/rest/importcsv/refactored/ImportCSVRefactored.java:54-65 | result and final store are those of the by-value import over the parser's records |
| ImportCsvRefactored.RunActions | src/main/java/org/springframework/samples/petclinic/rest/importcsv/refactored/ImportCSVRefactored.java:54-65 | the import by value; RunActionsSucceedsIff, RunActionsAllAccepted and RunActionsStopsAtFirstRejected state its outcome |
| ImportCsvRefactored.RunActionsText | src/main/java/org/springframework/samples/petclinic/rest/importcsv/refactored/ImportCSVRefactored.java:58-62 | one loop step on the unread text: its first line aborts the import or is applied and put in front of the rest |
| ImportCsvRefactored.RunActionsStep | src/main/java/org/springframework/samples/petclinic/rest/importcsv/refactored/ImportCSVRefactored.java:58-62 | one step of the import: the next record aborts it with its message or adds its action in front of the rest |
| ImportCsvRefactoredProperties.FindActionIgnoresCase | src/main/java/org/springframework/samples/petclinic/rest/importcsv/refactored/ImportCSVRefactored.java:131-137 | the field names ADD iff it lower-cases to "add", DELETE iff it lower-cases to "delete", and nothing otherwise |
| ImportCsvRefactoredProperties.EmptyActionIsUnknown | src/main/java/org/springframework/samples/petclinic/rest/importcsv/refactored/ImportCSVRefactored.java:131-137 | an empty action field names no action; it reaches the reader only when another field follows it |
| ImportCsvRefactoredProperties.TrailingSeparatorMeansAdd | src/main/java/org/springframework/samples/petclinic/rest/importcsv/refactored/SimpleCSVParser.java:22 | a line of four fields ending in `;` splits into those four fields and, when its checks pass, reads as ADD (readOptionalAction, ImportCSVRefactored.java:127-130) |
| ImportCsvRefactoredProperties.UpperCaseTypeIsUnknown | src/main/java/org/springframework/samples/petclinic/rest/importcsv/refactored/ImportCSVRefactored.java:102-108 | a type field with an upper-case letter ("Dog") matches no type |
| ImportCsvRefactoredProperties.MissingFieldMessages | src/main/java/org/springframework/samples/petclinic/rest/importcsv/refactored/ImportCSVRefactored.java:79-114 | a record cut short after 0, 1, 2 or 3 fields fails with the message of the first missing field |
| ImportCsvRefactoredProperties.InvalidFieldMessages | src/main/java/org/springframework/samples/petclinic/rest/importcsv/refactored/ImportCSVRefactored.java:86-137 | once the fields before it pass, each invalid field rejects the record with its own message |
| ImportCsvRefactoredProperties.ExtraFieldsIgnored | src/main/java/org/springframework/samples/petclinic/rest/importcsv/refactored/ImportCSVRefactored.java:67-77 | fields after the fifth are never read |
| ImportCsvRefactoredProperties.FourFieldsMeanAdd | src/main/java/org/springframework/samples/petclinic/rest/importcsv/refactored/ImportCSVRefactored.java:127-130 | a record of four fields reads as the same record with "add", in any case, as fifth field |
| ImportCsvRefactoredProperties.NameIsNotChecked | src/main/java/org/springframework/samples/petclinic/rest/importcsv/refactored/ImportCSVRefactored.java:79-84 | the name is taken unchanged, "" included: any name gives the same verdict and the action carries it |
| ImportCsvRefactoredProperties.DeleteKeepsExactlyOthers | src/main/java/org/springframework/samples/petclinic/rest/importcsv/refactored/ImportCSVRefactored.java:146-154 | a DELETE keeps exactly the pets that are not the owner's with the same name, type and birth date, each with its multiplicity |
| ImportCsvRefactoredProperties.DeleteWithoutMatchIsNoop | src/main/java/org/springframework/samples/petclinic/rest/importcsv/refactored/ImportCSVRefactored.java:146-154 | a DELETE matching no stored pet leaves the store unchanged |
| ImportCsvRefactoredProperties.AddThenDeleteIsDelete | src/main/java/org/springframework/samples/petclinic/rest/importcsv/refactored/ImportCSVRefactored.java:141-165 | an ADD followed by the DELETE of the same fields ends as the DELETE alone |
| ImportCsvRefactoredProperties.AcceptedActions | src/main/java/org/springframework/samples/petclinic/rest/importcsv/refactored/ImportCSVRefactored.java:58-60 | the actions of accepted records, one per record, each the record's reading |
| ImportCsvRefactoredProperties.RunActionsSucceedsIff | src/main/java/org/springframework/samples/petclinic/rest/importcsv/refactored/ImportCSVRefactored.java:54-65 | the import succeeds exactly when every record is accepted |
| ImportCsvRefactoredProperties.RunActionsAllAccepted | src/main/java/org/springframework/samples/petclinic/rest/importcsv/refactored/ImportCSVRefactored.java:54-65 | when all records are accepted the result is one action per record in order and the store has every action applied in order |
| ImportCsvRefactoredProperties.RunActionsStopsAtFirstRejected | src/main/java/org/springframework/samples/petclinic/rest/importcsv/refactored/ImportCSVRefactored.java:58-61 | the first rejected record ends the import with its message, the actions before it staying applied |
| ImportCsvRefactoredProperties.AddLineThenDeleteLine | src/main/java/org/springframework/samples/petclinic/rest/importcsv/refactored/ImportCSVRefactored.java:54-65 | an add record followed by a delete record with the same fields returns both actions and leaves the store as the delete alone |

## Left out

- HTTP and Spring plumbing (`pets`, `createErrorResponse`, the request-mapping and security annotations) is left out. Each batch returns `Success(list)` or `Failure(message)`, and the store afterwards.
- `ClinicService` is a foreign service.
  - Its store is a sequence of pet values. `savePet` appends, and `deletePet` removes every copy of an equal pet. Pets have no database id.
  - `findPetTypes`, `findAllPetTypes` and `findAllOwners` are fixed sequences passed as parameters.
  - `findOwnerByLastName` is a function parameter. Its matching rule is not visible in the source.
  - The refactored importer queries types and owners again for each record. The model uses one snapshot per import, which is equivalent because the import only changes pets.
- `SimpleDateFormat("yyyy-MM-dd").parse` is a parameter `string -> Option<Date>`, and dates are values compared by equality. No date validator is written.
- `Objects.equals` on types and dates is value equality of the modelled `PetType` and `Date`. `arePetsEqual` compares type ids, as the source does.
- `toLowerCase` and `equalsIgnoreCase` use the ASCII case mapping only. Locale-dependent and non-ASCII case mapping is not modelled.
- `Character.isWhitespace` is modelled by its set of characters, so `hasNext` is "some character is not whitespace".
  - `Scanner` buffering is not modelled.
  - Line terminators other than `\n` (`\r\n`, `\r`, `\u2028` and the others Scanner knows) are not modelled.
- SimpleCsv.SimpleCsvParser.NextRecord: requires some input to be left. `nextLine` throws on exhausted input, and the import only calls it after `hasNextRecord` holds.
- ImportCsv.RemovePetFromClinicService: the model assumes that `getPets()` of the owners fetched once by `findAllOwners()` (ImportCSV.java:138) reflects the saves and deletes of earlier rows of the same batch, by taking the owner's pets from the live store at each DELETE row. Whether the Java objects do is decided by the Owner, Pet and persistence code, which is not part of this model.
- ImportCsvRefactored.DeleteOwnerPetsLike: the same assumption for the owner that `findOwnerByLastName` returns for each record.
- Both delete loops iterate over `owner.getPets()` while deleting. The model iterates over a snapshot of the owner's pets taken before the first delete, and does not model aliasing between that collection and the store.
- `Pet` and `PetAction` are values. The `new Pet()` and setter calls in `parsePetRow` and `petActionToPet` are modelled as building the value in one step.
- ImportCsvRefactored.ParsePetActions: returns the contents of the DTOs it built, not the DTO objects. Their identity is not modelled.
- Transactions, concurrency and JSON serialisation of the results are outside the importers and are not modelled.
- `PetAttribute.java` is not part of this model. It holds only data, is unused by the importers, and compares strings by reference.
