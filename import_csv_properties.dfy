/**
 * Properties of the original importer: the shape of what readNextFieldCSV produces, the pet
 * type map, the delete of a pet, and the batch behaviour of importPets.
 */
module ImportCsvProperties {
  import opened Wrappers
  import opened Collections
  import opened Text
  import opened Clinic
  import opened ImportCsv

  // ---------------------------------------------------------------------------------------
  // Tokenizer
  // ---------------------------------------------------------------------------------------

  /** There is one closed piece per separator. */
  lemma ClosedPiecesCount(s: string, c: char)
    ensures |ClosedPieces(s, c)| == Count(s, c)
  {
    SplitOnLength(s, c);
  }

  /** The closed pieces of a prefix are a prefix of the closed pieces. */
  lemma {:induction false} ClosedPiecesPrefix(s: string, n: nat, c: char)
    requires n <= |s|
    ensures var p := ClosedPieces(s[..n], c);
            |p| <= |ClosedPieces(s, c)| && ClosedPieces(s, c)[..|p|] == p
    decreases |s| - n
  {
    if n == |s| {
      assert s[..n] == s;
    } else {
      ClosedPiecesPrefix(s, n + 1, c);
      assert s[..n + 1] == s[..n] + [s[n]];
      SplitOnSnoc(s[..n], s[n], c);
      var all := ClosedPieces(s, c);
      var p0 := ClosedPieces(s[..n], c);
      var p1 := ClosedPieces(s[..n + 1], c);
      assert p1[..|p0|] == p0;
      assert all[..|p1|][..|p0|] == all[..|p0|];
    }
  }

  /**
   * The result always has at least one row: one per newline, one more for the row that is
   * in the list twice, and one for a final line that no newline ends.
   */
  lemma TokenizeRowCount(csv: string)
    ensures |Tokenize(csv)| == 1 + Count(csv, '\n') + (if csv != [] && csv[|csv| - 1] != '\n' then 1 else 0)
  {
    ClosedPiecesCount(csv, '\n');
    SplitOnLastEmpty(csv, '\n');
  }

  /** On non-empty input the first row is also the second. */
  lemma TokenizeFirstRowTwice(csv: string)
    requires csv != []
    ensures |Tokenize(csv)| >= 2 && Tokenize(csv)[0] == Tokenize(csv)[1]
  {
    TokenizeRowCount(csv);
  }

  /** Empty input is one empty row. */
  lemma TokenizeEmpty()
    ensures Tokenize([]) == [[]]
  {
  }

  /** A field of the input `csv`: part of it, and free of both separators. */
  ghost predicate CleanField(f: string, csv: string) {
    ';' !in f && '\n' !in f && IsSubstring(f, csv)
  }

  /** A part of a string without `c` has no `c`. */
  lemma SubstringAvoids(p: string, s: string, c: char)
    requires IsSubstring(p, s) && c !in s
    ensures c !in p
  {
    var i, j :| 0 <= i <= j <= |s| && s[i..j] == p;
    forall k | 0 <= k < |p|
      ensures p[k] != c
    {
      assert p[k] == s[i + k];
    }
  }

  /** The `;`-pieces of a line of `csv` are fields of `csv`. */
  lemma LineFieldsClean(line: string, csv: string)
    requires line in SplitOn(csv, '\n')
    ensures forall f :: f in SplitOn(line, ';') ==> CleanField(f, csv)
  {
    SplitOnPiecesFree(csv, '\n');
    SplitOnPiecesAreSubstrings(csv, '\n');
    SplitOnPiecesFree(line, ';');
    SplitOnPiecesAreSubstrings(line, ';');
    forall f | f in SplitOn(line, ';')
      ensures CleanField(f, csv)
    {
      SubstringTransitive(f, line, csv);
      SubstringAvoids(f, line, '\n');
    }
  }

  /** Every field of every row closed by the tokenizer is a field of the input. */
  lemma ClosedRowsFieldsClean(csv: string)
    ensures forall row, f :: row in ClosedRows(csv) && f in row ==> CleanField(f, csv)
  {
    var lines := ClosedPieces(csv, '\n');
    var open := OpenPiece(csv, '\n');
    var rows := RowsOf(lines);
    forall row, f | row in ClosedRows(csv) && f in row
      ensures CleanField(f, csv)
    {
      if row in rows {
        var j :| 0 <= j < |rows| && rows[j] == row;
        RowsOfAt(lines, j);
        assert lines[j] in SplitOn(csv, '\n');
        LineFieldsClean(lines[j], csv);
      } else {
        assert open != [] && row == LastLineFields(open);
        assert open in SplitOn(csv, '\n');
        LineFieldsClean(open, csv);
        assert f in SplitOn(open, ';');
      }
    }
  }

  /** Every field readNextFieldCSV produces is part of the input and contains neither `;` nor `\n`. */
  lemma TokenizeFieldsClean(csv: string)
    ensures forall r, k :: 0 <= r < |Tokenize(csv)| && 0 <= k < |Tokenize(csv)[r]| ==>
              CleanField(Tokenize(csv)[r][k], csv)
  {
    ClosedRowsFieldsClean(csv);
    var rows := ClosedRows(csv);
    if rows != [] {
      forall r, k | 0 <= r < |Tokenize(csv)| && 0 <= k < |Tokenize(csv)[r]|
        ensures CleanField(Tokenize(csv)[r][k], csv)
      {
        var row := Tokenize(csv)[r];
        assert row in rows by {
          if r == 0 {
            assert row == rows[0];
          } else {
            assert row == rows[r - 1];
          }
        }
        assert row[k] in row;
      }
    }
  }

  /**
   * A `;` that is the last input character closes the last field without opening an empty one:
   * the last row has one field fewer than the `;`-pieces of the last line.
   */
  lemma FinalSeparatorDropsEmptyField(csv: string)
    requires csv != [] && csv[|csv| - 1] == ';'
    ensures var rows := Tokenize(csv);
            var line := OpenPiece(csv, '\n');
            && rows[|rows| - 1] + [""] == SplitOn(line, ';')
            && |rows[|rows| - 1]| == Count(line, ';')
  {
    var init := csv[..|csv| - 1];
    assert csv == init + [';'];
    SplitOnSnoc(init, ';', '\n');
    var line := OpenPiece(csv, '\n');
    assert line != [] && line[|line| - 1] == ';';
    SplitOnLastEmpty(line, ';');
    ClosedPiecesCount(line, ';');
  }

  /**
   * A `;` right before a `\n` does give an empty field: the row that newline closes (row
   * number `Count(csv[..i + 2], '\n')` of the result, counting the repeated first row) ends with "".
   */
  lemma SeparatorBeforeNewlineKeepsEmptyField(csv: string, i: nat)
    requires i + 1 < |csv| && csv[i] == ';' && csv[i + 1] == '\n'
    ensures var j := Count(csv[..i + 2], '\n');
            var rows := Tokenize(csv);
            1 <= j < |rows| && rows[j] != [] && rows[j][|rows[j]| - 1] == ""
  {
    var pre := csv[..i + 1];
    assert csv[..i + 2] == pre + ['\n'];
    assert pre == csv[..i] + [';'];
    SplitOnSnoc(csv[..i], ';', '\n');
    SplitOnSnoc(pre, '\n', '\n');
    var line := OpenPiece(pre, '\n');
    assert line != [] && line[|line| - 1] == ';';
    ClosedPiecesCount(csv[..i + 2], '\n');
    ClosedPiecesPrefix(csv, i + 2, '\n');
    var lines := ClosedPieces(csv, '\n');
    var j := Count(csv[..i + 2], '\n');
    assert lines[j - 1] == line;
    SplitOnLastEmpty(line, ';');
    RowsOfAt(lines, j - 1);
    var rows := ClosedRows(csv);
    assert rows[j - 1] == SplitOn(line, ';');
  }

  // ---------------------------------------------------------------------------------------
  // Pet type map
  // ---------------------------------------------------------------------------------------

  /** A key of the type map is the lower-cased name of some type, and every lower-cased name is a key. */
  lemma {:induction false} PetTypeMapKeys(petTypes: seq<PetType>, key: string)
    ensures key in PetTypeMap(petTypes) <==> exists j :: 0 <= j < |petTypes| && ToLower(petTypes[j].name) == key
    decreases |petTypes|
  {
    if petTypes != [] {
      var n := |petTypes| - 1;
      var init := petTypes[..n];
      PetTypeMapKeys(init, key);
      if key in PetTypeMap(init) {
        var j :| 0 <= j < n && ToLower(init[j].name) == key;
        assert petTypes[j] == init[j];
      }
      if j :| 0 <= j < n && ToLower(petTypes[j].name) == key {
        assert petTypes[j] == init[j];
      }
    }
  }

  /** Under a key the type map holds the last type with that lower-cased name. */
  lemma {:induction false} PetTypeMapLast(petTypes: seq<PetType>, key: string, j: nat)
    requires j < |petTypes| && ToLower(petTypes[j].name) == key
    requires forall j' :: j < j' < |petTypes| ==> ToLower(petTypes[j'].name) != key
    ensures key in PetTypeMap(petTypes) && PetTypeMap(petTypes)[key] == petTypes[j]
    decreases |petTypes|
  {
    var n := |petTypes| - 1;
    if j < n {
      var init := petTypes[..n];
      assert ToLower(petTypes[n].name) != key;
      forall j' | j < j' < n
        ensures ToLower(init[j'].name) != key
      {
        assert init[j'] == petTypes[j'];
      }
      PetTypeMapLast(init, key, j);
    }
  }

  /**
   * The action field, in any case: "add" or the empty field mean ADD, "delete" means DELETE,
   * anything else is no action.
   */
  lemma ClinicActionField(field: string)
    ensures ParseClinicPetAction(field) == Some(ADD) <==> ToLower(field) == "add" || field == []
    ensures ParseClinicPetAction(field) == Some(DELETE) <==> ToLower(field) == "delete"
  {
  }

  /** A type field with an upper-case letter ("Dog") never resolves. */
  lemma UpperCaseTypeNeverResolves(petTypes: seq<PetType>, field: string, i: nat)
    requires i < |field| && 'A' <= field[i] <= 'Z'
    ensures field !in PetTypeMap(petTypes)
  {
    PetTypeMapKeys(petTypes, field);
    if field in PetTypeMap(petTypes) {
      var j :| 0 <= j < |petTypes| && ToLower(petTypes[j].name) == field;
      ToLowerHasNoUpper(petTypes[j].name);
      assert false;
    }
  }

  // ---------------------------------------------------------------------------------------
  // Identity matching and delete
  // ---------------------------------------------------------------------------------------

  /** arePetsEqual is an equivalence: reflexive, symmetric and transitive. */
  lemma ArePetsEqualEquivalence()
    ensures forall p :: ArePetsEqual(p, p)
    ensures forall p, q :: ArePetsEqual(p, q) ==> ArePetsEqual(q, p)
    ensures forall p, q, s :: ArePetsEqual(p, q) && ArePetsEqual(q, s) ==> ArePetsEqual(p, s)
  {
  }

  /**
   * A delete keeps exactly the pets it does not match (the owner's pets equal to `pet`), each
   * with its number of copies.
   */
  lemma DeleteRemovesMatching(pets: seq<Pet>, pet: Pet)
    ensures forall p :: p in PetsAfterDelete(pets, pet) <==> p in pets && !DeletedBy(pet, p)
    ensures forall p :: !DeletedBy(pet, p) ==> multiset(PetsAfterDelete(pets, pet))[p] == multiset(pets)[p]
  {
  }

  /** A delete that matches none of the stored pets changes nothing. */
  lemma DeleteWithoutMatchIsNoop(pets: seq<Pet>, pet: Pet)
    requires forall p :: p in pets ==> !DeletedBy(pet, p)
    ensures PetsAfterDelete(pets, pet) == pets
  {
    DeleteOwnerMatchesNothing(pets, pet.owner, (x: Pet) => ArePetsEqual(pet, x));
  }

  // ---------------------------------------------------------------------------------------
  // Batch
  // ---------------------------------------------------------------------------------------

  /** The validated rows of a batch whose every row is accepted. */
  function AcceptedRows(rows: seq<seq<string>>, petTypeMap: map<string, PetType>, petOwners: seq<Owner>,
                        parseDate: string -> Option<Date>): (r: seq<PetRowResult>)
    requires forall k :: 0 <= k < |rows| ==> RowAccepted(rows[k], petTypeMap, petOwners, parseDate)
    ensures |r| == |rows|
    ensures forall k :: 0 <= k < |rows| ==> ParsePetRow(rows[k], petTypeMap, petOwners, parseDate) == Success(r[k])
    decreases |rows|
  {
    if rows == [] then []
    else
      var rest := rows[1..];
      assert forall k :: 0 <= k < |rest| ==> rest[k] == rows[k + 1];
      var tail := AcceptedRows(rest, petTypeMap, petOwners, parseDate);
      var r := [ParsePetRow(rows[0], petTypeMap, petOwners, parseDate).value] + tail;
      assert forall k :: 0 < k < |rows| ==> r[k] == tail[k - 1] && rows[k] == rest[k - 1];
      r
  }

  /** The store after applying validated rows in order. */
  function ApplyRows(pets: seq<Pet>, results: seq<PetRowResult>): seq<Pet>
    decreases |results|
  {
    if results == [] then pets else ApplyRows(ApplyRow(pets, results[0]), results[1..])
  }

  /** The batch succeeds exactly when every row is accepted. */
  lemma {:induction false} RunImportSucceedsIff(rows: seq<seq<string>>, petTypeMap: map<string, PetType>,
                                               petOwners: seq<Owner>, parseDate: string -> Option<Date>, pets: seq<Pet>)
    ensures RunImport(rows, petTypeMap, petOwners, parseDate, pets).0.Success? <==>
            forall k :: 0 <= k < |rows| ==> RowAccepted(rows[k], petTypeMap, petOwners, parseDate)
    decreases |rows|
  {
    if rows != [] {
      var here := ParsePetRow(rows[0], petTypeMap, petOwners, parseDate);
      if here.Success? {
        var rest := rows[1..];
        var after := ApplyRow(pets, here.value);
        RunImportSucceedsIff(rest, petTypeMap, petOwners, parseDate, after);
        assert forall k :: 0 < k < |rows| ==> rows[k] == rest[k - 1];
        assert RunImport(rows, petTypeMap, petOwners, parseDate, pets).0.Success? ==
               RunImport(rest, petTypeMap, petOwners, parseDate, after).0.Success?;
      }
    }
  }

  /**
   * A batch whose rows are all accepted returns one pet per row, in row order, and leaves the
   * store with every row applied in order.
   */
  lemma {:induction false} RunImportAllAccepted(rows: seq<seq<string>>, petTypeMap: map<string, PetType>,
                                               petOwners: seq<Owner>, parseDate: string -> Option<Date>, pets: seq<Pet>)
    requires forall k :: 0 <= k < |rows| ==> RowAccepted(rows[k], petTypeMap, petOwners, parseDate)
    ensures var out := RunImport(rows, petTypeMap, petOwners, parseDate, pets);
            var accepted := AcceptedRows(rows, petTypeMap, petOwners, parseDate);
            && out.0.Success?
            && |out.0.value| == |rows|
            && (forall k :: 0 <= k < |rows| ==> out.0.value[k] == accepted[k].pet)
            && out.1 == ApplyRows(pets, accepted)
    decreases |rows|
  {
    if rows != [] {
      var accepted := AcceptedRows(rows, petTypeMap, petOwners, parseDate);
      var here := accepted[0];
      assert forall k :: 0 <= k < |rows| - 1 ==> rows[1..][k] == rows[k + 1];
      RunImportAllAccepted(rows[1..], petTypeMap, petOwners, parseDate, ApplyRow(pets, here));
      assert AcceptedRows(rows[1..], petTypeMap, petOwners, parseDate) == accepted[1..];
    }
  }

  /**
   * The first rejected row ends the batch with its own message, and the rows before it stay
   * applied to the store.
   */
  lemma {:induction false} RunImportStopsAtFirstRejected(rows: seq<seq<string>>, k: nat, petTypeMap: map<string, PetType>,
                                                        petOwners: seq<Owner>, parseDate: string -> Option<Date>,
                                                        pets: seq<Pet>)
    requires k < |rows|
    requires forall j :: 0 <= j < k ==> RowAccepted(rows[j], petTypeMap, petOwners, parseDate)
    requires !RowAccepted(rows[k], petTypeMap, petOwners, parseDate)
    ensures RunImport(rows, petTypeMap, petOwners, parseDate, pets) ==
            (Failure(ParsePetRow(rows[k], petTypeMap, petOwners, parseDate).error),
             ApplyRows(pets, AcceptedRows(rows[..k], petTypeMap, petOwners, parseDate)))
    decreases k
  {
    if k > 0 {
      var accepted := AcceptedRows(rows[..k], petTypeMap, petOwners, parseDate);
      var here := accepted[0];
      assert forall j :: 0 <= j < |rows| - 1 ==> rows[1..][j] == rows[j + 1];
      RunImportStopsAtFirstRejected(rows[1..], k - 1, petTypeMap, petOwners, parseDate, ApplyRow(pets, here));
      assert rows[1..][..k - 1] == rows[..k][1..];
      assert AcceptedRows(rows[1..][..k - 1], petTypeMap, petOwners, parseDate) == accepted[1..];
    }
  }

  /** Empty input fails: its one empty row does not have five fields. */
  lemma EmptyInputFails(petTypes: seq<PetType>, petOwners: seq<Owner>, parseDate: string -> Option<Date>,
                        pets: seq<Pet>)
    ensures RunImport(Tokenize([]), PetTypeMap(petTypes), petOwners, parseDate, pets) == (Failure(SizeMessage(0)), pets)
  {
    assert Tokenize([]) == [[]];
  }

  /** A single unterminated line is tokenized into its row, twice. */
  lemma TokenizeSingleLine(line: string)
    requires line != [] && '\n' !in line
    ensures Tokenize(line) == [LastLineFields(line), LastLineFields(line)]
  {
    SplitOnNoSeparator(line, '\n');
    assert ClosedRows(line) == [LastLineFields(line)];
  }

  /** A batch of the same valid ADD row twice saves its pet twice and returns it twice. */
  lemma RunImportSameAddTwice(row: seq<string>, petTypeMap: map<string, PetType>, petOwners: seq<Owner>,
                              parseDate: string -> Option<Date>, pets: seq<Pet>)
    requires var r := ParsePetRow(row, petTypeMap, petOwners, parseDate); r.Success? && r.value.action == ADD
    ensures var pet := ParsePetRow(row, petTypeMap, petOwners, parseDate).value.pet;
            RunImport([row, row], petTypeMap, petOwners, parseDate, pets) == (Success([pet, pet]), pets + [pet, pet])
  {
    var here := ParsePetRow(row, petTypeMap, petOwners, parseDate).value;
    var pet := here.pet;
    var once := pets + [pet];
    var twice := once + [pet];
    assert [row, row][1..] == [row] && [row][1..] == [];
    assert RunImport([row], petTypeMap, petOwners, parseDate, once) == (Success([pet]), twice) by {
      assert RunImport([], petTypeMap, petOwners, parseDate, twice) == (Success([]), twice);
      assert [pet] + [] == [pet];
    }
    assert [pet] + [pet] == [pet, pet];
    assert twice == pets + [pet, pet];
  }

  /**
   * A one-line input whose row is a valid ADD saves the pet twice and returns it twice,
   * because the tokenizer puts the first row in its result twice.
   */
  lemma SingleAddLineSavedTwice(line: string, petTypes: seq<PetType>, petOwners: seq<Owner>,
                                parseDate: string -> Option<Date>, pets: seq<Pet>)
    requires line != [] && '\n' !in line
    requires var r := ParsePetRow(LastLineFields(line), PetTypeMap(petTypes), petOwners, parseDate);
             r.Success? && r.value.action == ADD
    ensures var pet := ParsePetRow(LastLineFields(line), PetTypeMap(petTypes), petOwners, parseDate).value.pet;
            RunImport(Tokenize(line), PetTypeMap(petTypes), petOwners, parseDate, pets) ==
              (Success([pet, pet]), pets + [pet, pet])
  {
    TokenizeSingleLine(line);
    RunImportSameAddTwice(LastLineFields(line), PetTypeMap(petTypes), petOwners, parseDate, pets);
  }
}
