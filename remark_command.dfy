/** `RemarkCommand.execute` as the remark-command tests exercise it: look the
    id up in the store's full list, fail with the invalid-index message when
    nobody has it, otherwise store the person with the new remark and report an
    "added" or a "removed" remark. */
module RemarkCommands {
  import opened Wrappers
  import opened People
  import opened ModelStubs

  /** A remark command for the person with `id`. */
  datatype RemarkCommand = RemarkCommand(id: int, remark: Remark)

  /** `CommandException` with `Messages.MESSAGE_INVALID_PERSON_DISPLAYED_INDEX`. */
  datatype CommandError = InvalidPersonDisplayedIndex

  /** The feedback to the user: `MESSAGE_ADD_REMARK_SUCCESS` or
      `MESSAGE_DELETE_REMARK_SUCCESS`, formatted with `person`. */
  datatype Feedback = AddRemarkSuccess(person: Person) | DeleteRemarkSuccess(person: Person)

  /** The result `execute` reports for `command` against a store holding `persons`. */
  function ExpectedResult(persons: seq<Person>, command: RemarkCommand): (r: Result<Feedback, CommandError>)
    ensures r.Failure? <==> forall j :: 0 <= j < |persons| ==> persons[j].id != command.id
    ensures r.Failure? ==> r.error == InvalidPersonDisplayedIndex
    ensures r.Success? ==> r.value.person.id == command.id && r.value.person in persons
    ensures r.Success? ==>
      exists k :: 0 <= k < |persons| && persons[k] == r.value.person &&
        forall j :: 0 <= j < k ==> persons[j].id != command.id
    ensures r.Success? ==> (r.value.AddRemarkSuccess? <==> command.remark.value != "")
  {
    match FindById(persons, command.id)
    case None => Failure(InvalidPersonDisplayedIndex)
    case Some(p) =>
      if command.remark.value != "" then Success(AddRemarkSuccess(p)) else Success(DeleteRemarkSuccess(p))
  }

  /** `command.execute(model)`. `setPersonOutcome` is what the `setPerson` call
      did: `None` when the lookup failed and `setPerson` was not called. The edit
      it stores is the looked-up person with the new remark, which is the same
      person, so that call never throws. */
  method Execute(command: RemarkCommand, model: ModelStubAcceptingAppointmentAdded)
    returns (result: Result<Feedback, CommandError>, setPersonOutcome: Option<Outcome<StoreError>>)
    modifies model
    ensures result == ExpectedResult(old(model.personList), command)
    ensures result.Failure? <==> setPersonOutcome.None?
    ensures result.Success? ==> setPersonOutcome == Some(Pass)
  {
    var allPersons := model.GetFilteredPersonList();
    var found := model.GetFilteredPatientById(allPersons, command.id);
    if found.None? {
      return Failure(InvalidPersonDisplayedIndex), None;
    }
    var person := found.value;
    var edited := WithRemark(person, command.remark);
    var outcome := model.SetPerson(person, edited);
    setPersonOutcome := Some(outcome);
    if command.remark.value != "" {
      result := Success(AddRemarkSuccess(person));
    } else {
      result := Success(DeleteRemarkSuccess(person));
    }
  }

  /** `execute_invalidPatientRemark_throwsException`: on a cleared store the
      command fails with the invalid-index message. */
  method InvalidPatientRemarkThrowsException(validPatient: Person)
    returns (result: Result<Feedback, CommandError>)
    ensures result == Failure(InvalidPersonDisplayedIndex)
  {
    var modelStub := new ModelStubAcceptingAppointmentAdded();
    modelStub.ClearList();
    var remark := Remark("Headache");
    var stored;
    result, stored := Execute(RemarkCommand(validPatient.id, remark), modelStub);
  }

  /** `execute_validPatientRemark_addedSuccessful`: with the patient stored, a
      non-empty remark reports the add-remark message for that patient. */
  method ValidPatientRemarkAddedSuccessful(validPatient: Person)
    returns (result: Result<Feedback, CommandError>)
    ensures result == Success(AddRemarkSuccess(validPatient))
  {
    var modelStub := new ModelStubAcceptingAppointmentAdded();
    modelStub.ClearList();
    modelStub.AddPerson(validPatient);
    var remark := Remark("Headache");
    var command := RemarkCommand(validPatient.id, remark);
    var stored;
    result, stored := Execute(command, modelStub);
  }

  /** `execute_validPatientRemark_addedFailure`: with the patient stored, an
      empty remark is not an error; it reports the delete-remark message. */
  method ValidPatientEmptyRemarkDeleted(validPatient: Person)
    returns (result: Result<Feedback, CommandError>)
    ensures result == Success(DeleteRemarkSuccess(validPatient))
  {
    var modelStub := new ModelStubAcceptingAppointmentAdded();
    modelStub.ClearList();
    modelStub.AddPerson(validPatient);
    var remark := Remark("");
    var command := RemarkCommand(validPatient.id, remark);
    var stored;
    result, stored := Execute(command, modelStub);
  }
}
