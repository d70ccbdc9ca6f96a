/**
 * Properties of the refactored importer: how one record is read (which fields matter, in
 * which order they are checked, how the type and the action are matched), what applying an
 * action does to the store, and the batch behaviour of parsePetActions.
 */
module ImportCsvRefactoredProperties {
  import opened Wrappers
  import opened Collections
  import opened Text
  import opened Clinic
  import opened SimpleCsv
  import opened PetActionDto
  import opened ImportCsvRefactored

  // ---------------------------------------------------------------------------------------
  // Matching the action and the type
  // ---------------------------------------------------------------------------------------

  /** "ADD" lower-cased. */
  lemma LowerAdd()
    ensures ToLower(ActionName(ADD)) == "add"
  {
    assert ToLower("ADD")[0] == 'a' && ToLower("ADD")[1] == 'd' && ToLower("ADD")[2] == 'd';
  }

  /** "DELETE" lower-cased. */
  lemma LowerDelete()
    ensures ToLower(ActionName(DELETE)) == "delete"
  {
    var d := ToLower("DELETE");
    assert d[0] == 'd' && d[1] == 'e' && d[2] == 'l' && d[3] == 'e' && d[4] == 't' && d[5] == 'e';
  }

  /**
   * The action field names ADD exactly when it is "add" in any case, DELETE exactly when it is
   * "delete" in any case, and nothing otherwise.
   */
  lemma FindActionIgnoresCase(entry: string)
    ensures FindAction(entry) == Some(ADD) <==> ToLower(entry) == "add"
    ensures FindAction(entry) == Some(DELETE) <==> ToLower(entry) == "delete"
    ensures FindAction(entry).None? <==> ToLower(entry) != "add" && ToLower(entry) != "delete"
  {
    LowerAdd();
    LowerDelete();
  }

  /**
   * An empty action field names no action. Such a field only reaches readOptionalAction when
   * another field follows it (`...;Franklin;;x`): a trailing empty field is dropped by the split
   * (see TrailingSeparatorMeansAdd).
   */
  lemma EmptyActionIsUnknown()
    ensures FindAction("") == None
  {
    FindActionIgnoresCase("");
  }

  /**
   * A type field holding an upper-case letter ("Dog") matches no type, because only the
   * stored names are lower-cased before the comparison.
   */
  lemma UpperCaseTypeIsUnknown(types: seq<PetType>, field: string, i: nat)
    requires i < |field| && 'A' <= field[i] <= 'Z'
    ensures FindType(types, field) == None
  {
    forall j | 0 <= j < |types|
      ensures ToLower(types[j].name) != field
    {
      ToLowerHasNoUpper(types[j].name);
    }
  }

  // ---------------------------------------------------------------------------------------
  // Reading one record
  // ---------------------------------------------------------------------------------------

  /** The message for each missing field, in field order. */
  lemma MissingFieldMessages(record: seq<string>, types: seq<PetType>, findOwner: string -> seq<Owner>,
                             parseDate: string -> Option<Date>)
    ensures var r := ReadRecord(record, types, findOwner, parseDate);
            && (|record| == 0 ==> r == Failure(PetNameMissing))
            && (|record| == 1 ==> r == Failure(DateOfBirthMissing))
            && (|record| == 2 && parseDate(record[1]).Some? ==> r == Failure(PetTypeMissing))
            && (|record| == 3 && parseDate(record[1]).Some? && FindType(types, record[2]).Some? ==>
                  r == Failure(OwnerNameMissing))
  {
  }

  /**
   * Each value check, once the fields before it pass, rejects the record with its own
   * message: the date, then the type, then the owner (none, or more than one), then the action.
   */
  lemma InvalidFieldMessages(record: seq<string>, types: seq<PetType>, findOwner: string -> seq<Owner>,
                             parseDate: string -> Option<Date>)
    requires |record| >= 2
    ensures var r := ReadRecord(record, types, findOwner, parseDate);
            && (parseDate(record[1]).None? ==> r == Failure(DateOfBirthInvalid))
            && (parseDate(record[1]).Some? && |record| >= 3 && FindType(types, record[2]).None? ==>
                  r == Failure(UnknownPetType(record[2])))
            && (parseDate(record[1]).Some? && |record| >= 4 && FindType(types, record[2]).Some? ==>
                  && (|findOwner(record[3])| == 0 ==> r == Failure(UnknownOwner))
                  && (|findOwner(record[3])| > 1 ==> r == Failure(OwnerNotUnique))
                  && (|findOwner(record[3])| == 1 && |record| >= 5 && FindAction(record[4]).None? ==>
                        r == Failure(UnknownAction)))
  {
  }

  /** Fields after the fifth are never read. */
  lemma ExtraFieldsIgnored(record: seq<string>, types: seq<PetType>, findOwner: string -> seq<Owner>,
                           parseDate: string -> Option<Date>)
    requires |record| > 5
    ensures ReadRecord(record, types, findOwner, parseDate) == ReadRecord(record[..5], types, findOwner, parseDate)
  {
    var five := record[..5];
    assert five[0] == record[0] && five[1] == record[1] && five[2] == record[2];
    assert five[3] == record[3] && five[4] == record[4];
  }

  /** A record of four fields reads as the same record with "add", in any case, as fifth field. */
  lemma FourFieldsMeanAdd(record: seq<string>, entry: string, types: seq<PetType>, findOwner: string -> seq<Owner>,
                          parseDate: string -> Option<Date>)
    requires |record| == 4 && ToLower(entry) == "add"
    ensures ReadRecord(record + [entry], types, findOwner, parseDate) == ReadRecord(record, types, findOwner, parseDate)
  {
    FindActionIgnoresCase(entry);
    var five := record + [entry];
    assert five[0] == record[0] && five[1] == record[1] && five[2] == record[2];
    assert five[3] == record[3] && five[4] == entry;
  }

  /**
   * A line of four fields with a trailing `;`, the usual way to leave the action empty, splits
   * into just those four fields, so it reads as ADD whenever its checks pass.
   */
  lemma TrailingSeparatorMeansAdd(fields: seq<string>, types: seq<PetType>, findOwner: string -> seq<Owner>,
                                  parseDate: string -> Option<Date>)
    requires |fields| == 4 && fields[3] != []
    requires forall k :: 0 <= k < 4 ==> ';' !in fields[k]
    ensures JavaSplit(Join(fields, ';') + ";") == fields
    ensures var r := ReadRecord(JavaSplit(Join(fields, ';') + ";"), types, findOwner, parseDate);
            RecordAccepted(fields, types, findOwner, parseDate) ==> r.Success? && r.value.action == ADD
  {
    var joined := Join(fields, ';');
    var line := joined + ";";
    var last := fields[3];
    assert joined == Terminate(fields[..3], ';') + last;
    assert joined[|joined| - 1] == last[|last| - 1];
    assert last[|last| - 1] in last;
    assert line[..|line| - 1] == joined;
    assert StripTrailing(line, ';') == StripTrailing(joined, ';');
    assert StripTrailing(joined, ';') == joined;
    JavaSplitOfJoinedFields(line, fields);
  }

  /**
   * The name field is taken as it is and never checked: any name, the empty one included,
   * gives the same verdict, and on success the action carries that name.
   */
  lemma NameIsNotChecked(name: string, other: string, rest: seq<string>, types: seq<PetType>,
                         findOwner: string -> seq<Owner>, parseDate: string -> Option<Date>)
    ensures var r := ReadRecord([name] + rest, types, findOwner, parseDate);
            var s := ReadRecord([other] + rest, types, findOwner, parseDate);
            && (r.Success? <==> s.Success?)
            && (r.Failure? ==> r.error == s.error)
            && (r.Success? ==> r.value == s.value.(name := name))
  {
    var a := [name] + rest;
    var b := [other] + rest;
    assert a[0] == name && b[0] == other;
    assert forall k :: 0 < k < |a| ==> a[k] == rest[k - 1] == b[k];
  }

  // ---------------------------------------------------------------------------------------
  // Applying an action
  // ---------------------------------------------------------------------------------------

  /**
   * A DELETE keeps exactly the stored pets that are not the owner's with the action's name,
   * type and birth date, each with its multiplicity.
   */
  lemma DeleteKeepsExactlyOthers(pets: seq<Pet>, a: PetAction)
    requires a.action == DELETE
    ensures forall p :: p in ActionEffect(pets, a) <==> p in pets && !(p.owner == a.owner && SameEntry(a, p))
    ensures forall p: Pet :: !(p.owner == a.owner && SameEntry(a, p)) ==>
                         multiset(ActionEffect(pets, a))[p] == multiset(pets)[p]
  {
  }

  /** A DELETE that matches no stored pet leaves the store as it was. */
  lemma DeleteWithoutMatchIsNoop(pets: seq<Pet>, a: PetAction)
    requires a.action == DELETE
    requires forall p :: p in pets ==> !(p.owner == a.owner && SameEntry(a, p))
    ensures ActionEffect(pets, a) == pets
  {
    DeleteOwnerMatchesNothing(pets, a.owner, (x: Pet) => SameEntry(a, x));
  }

  /** An ADD followed by the DELETE of the same fields ends as the DELETE alone: the new pet is gone too. */
  lemma AddThenDeleteIsDelete(pets: seq<Pet>, a: PetAction)
    requires a.action == ADD
    ensures var d := a.(action := DELETE);
            ActionEffect(ActionEffect(pets, a), d) == ActionEffect(pets, d)
  {
    var d := a.(action := DELETE);
    var pet := PetActionToPet(a);
    var matches := (x: Pet) => SameEntry(d, x);
    var keep := (x: Pet) => !(x.owner == d.owner && matches(x));
    FilterAppend(pets, [pet], keep);
    assert Filter([pet], keep) == [];
  }

  // ---------------------------------------------------------------------------------------
  // The whole import
  // ---------------------------------------------------------------------------------------

  /** The actions of records that are all accepted, in record order. */
  function AcceptedActions(records: seq<seq<string>>, types: seq<PetType>, findOwner: string -> seq<Owner>,
                           parseDate: string -> Option<Date>): (r: seq<PetAction>)
    requires forall k :: 0 <= k < |records| ==> RecordAccepted(records[k], types, findOwner, parseDate)
    ensures |r| == |records|
    ensures forall k :: 0 <= k < |records| ==> ReadRecord(records[k], types, findOwner, parseDate) == Success(r[k])
    decreases |records|
  {
    if records == [] then []
    else
      var rest := records[1..];
      assert forall k :: 0 <= k < |rest| ==> rest[k] == records[k + 1];
      var tail := AcceptedActions(rest, types, findOwner, parseDate);
      var r := [ReadRecord(records[0], types, findOwner, parseDate).value] + tail;
      assert forall k :: 0 < k < |records| ==> r[k] == tail[k - 1] && records[k] == rest[k - 1];
      r
  }

  /** The store after applying actions in order. */
  function ApplyActions(pets: seq<Pet>, actions: seq<PetAction>): seq<Pet>
    decreases |actions|
  {
    if actions == [] then pets else ApplyActions(ActionEffect(pets, actions[0]), actions[1..])
  }

  /** The import succeeds exactly when every record is accepted. */
  lemma {:induction false} RunActionsSucceedsIff(records: seq<seq<string>>, types: seq<PetType>,
                                                findOwner: string -> seq<Owner>, parseDate: string -> Option<Date>,
                                                pets: seq<Pet>)
    ensures RunActions(records, types, findOwner, parseDate, pets).0.Success? <==>
            forall k :: 0 <= k < |records| ==> RecordAccepted(records[k], types, findOwner, parseDate)
    decreases |records|
  {
    if records != [] {
      var here := ReadRecord(records[0], types, findOwner, parseDate);
      if here.Success? {
        var rest := records[1..];
        var after := ActionEffect(pets, here.value);
        RunActionsSucceedsIff(rest, types, findOwner, parseDate, after);
        assert forall k :: 0 < k < |records| ==> records[k] == rest[k - 1];
        assert RunActions(records, types, findOwner, parseDate, pets).0.Success? ==
               RunActions(rest, types, findOwner, parseDate, after).0.Success?;
      }
    }
  }

  /**
   * When every record is accepted, the import returns one action per record, in record order,
   * and leaves the store with every action applied in order.
   */
  lemma {:induction false} RunActionsAllAccepted(records: seq<seq<string>>, types: seq<PetType>,
                                                findOwner: string -> seq<Owner>, parseDate: string -> Option<Date>,
                                                pets: seq<Pet>)
    requires forall k :: 0 <= k < |records| ==> RecordAccepted(records[k], types, findOwner, parseDate)
    ensures var accepted := AcceptedActions(records, types, findOwner, parseDate);
            RunActions(records, types, findOwner, parseDate, pets) == (Success(accepted), ApplyActions(pets, accepted))
    decreases |records|
  {
    if records != [] {
      var accepted := AcceptedActions(records, types, findOwner, parseDate);
      var rest := records[1..];
      assert forall k :: 0 <= k < |rest| ==> rest[k] == records[k + 1];
      RunActionsAllAccepted(rest, types, findOwner, parseDate, ActionEffect(pets, accepted[0]));
      assert AcceptedActions(rest, types, findOwner, parseDate) == accepted[1..];
      assert [accepted[0]] + accepted[1..] == accepted;
    }
  }

  /**
   * The first rejected record ends the import with its own message, and the actions of the
   * records before it stay applied to the store.
   */
  lemma {:induction false} RunActionsStopsAtFirstRejected(records: seq<seq<string>>, k: nat, types: seq<PetType>,
                                                         findOwner: string -> seq<Owner>,
                                                         parseDate: string -> Option<Date>, pets: seq<Pet>)
    requires k < |records|
    requires forall j :: 0 <= j < k ==> RecordAccepted(records[j], types, findOwner, parseDate)
    requires !RecordAccepted(records[k], types, findOwner, parseDate)
    ensures RunActions(records, types, findOwner, parseDate, pets) ==
            (Failure(ReadRecord(records[k], types, findOwner, parseDate).error),
             ApplyActions(pets, AcceptedActions(records[..k], types, findOwner, parseDate)))
    decreases k
  {
    if k > 0 {
      var accepted := AcceptedActions(records[..k], types, findOwner, parseDate);
      var rest := records[1..];
      assert forall j :: 0 <= j < |rest| ==> rest[j] == records[j + 1];
      RunActionsStopsAtFirstRejected(rest, k - 1, types, findOwner, parseDate, ActionEffect(pets, accepted[0]));
      assert rest[..k - 1] == records[..k][1..];
      assert AcceptedActions(rest[..k - 1], types, findOwner, parseDate) == accepted[1..];
    }
  }

  /**
   * Two records with the same fields, the first adding and the second deleting, leave the
   * store as the delete alone would: the pet just added is removed again.
   */
  lemma AddLineThenDeleteLine(add: seq<string>, delete: seq<string>, types: seq<PetType>,
                              findOwner: string -> seq<Owner>, parseDate: string -> Option<Date>, pets: seq<Pet>)
    requires |add| == 5 && |delete| == 5 && add[..4] == delete[..4]
    requires RecordAccepted(add, types, findOwner, parseDate)
    requires ToLower(add[4]) == "add" && ToLower(delete[4]) == "delete"
    ensures var a := ReadRecord(add, types, findOwner, parseDate).value;
            var d := a.(action := DELETE);
            RunActions([add, delete], types, findOwner, parseDate, pets) == (Success([a, d]), ActionEffect(pets, d))
  {
    FindActionIgnoresCase(add[4]);
    FindActionIgnoresCase(delete[4]);
    assert add[0] == delete[0] && add[1] == delete[1] && add[2] == delete[2] && add[3] == delete[3] by {
      assert add[..4][0] == delete[..4][0] && add[..4][1] == delete[..4][1];
      assert add[..4][2] == delete[..4][2] && add[..4][3] == delete[..4][3];
    }
    var a := ReadRecord(add, types, findOwner, parseDate).value;
    var d := a.(action := DELETE);
    assert ReadRecord(delete, types, findOwner, parseDate) == Success(d);
    AddThenDeleteIsDelete(pets, a);
    var records := [add, delete];
    assert records[0] == add && records[1..] == [delete];
    assert [delete][0] == delete && [delete][1..] == [];
    var afterAdd := ActionEffect(pets, a);
    assert RunActions([], types, findOwner, parseDate, ActionEffect(afterAdd, d)) == (Success([]), ActionEffect(afterAdd, d));
    assert [d] + [] == [d];
    assert RunActions([delete], types, findOwner, parseDate, afterAdd) == (Success([d]), ActionEffect(afterAdd, d));
    assert [a] + [d] == [a, d];
  }
}
