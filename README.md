# Remark command and its in-memory person store

This project models the sequential core of the clinic address book's remark
command tests. The tests run `RemarkCommand.execute` against
`ModelStubAcceptingAppointmentAdded`, an in-memory store of persons (patients and
doctors) kept in an `ArrayList<Person>`. The store can:

- append a person, or clear the list;
- answer `hasPerson`, using domain equality (`isSamePerson`);
- look a person up by numeric id, returning the first match or `null`;
- replace a person in place with `setPerson`, which can throw two exceptions;
- write one appointment record into a doctor and one into a patient.

The command looks the id up in the store's full list. When nobody has the id
it fails with the invalid-index message. Otherwise it stores the person with
the new remark. It reports "remark added" when the remark text is non-empty and
"remark removed" when the text is empty. An empty remark is a deletion, not an
error.

Modules:

- `Wrappers` (`wrappers.dfy`): `Option`, `Result` and `Outcome`. A `null` return
  becomes `None` and a thrown exception becomes `Failure`/`Fail`.
- `People` (`people.dfy`): `Person`, `Appointment`, `Remark`, `Role` and `DateTime`
  as datatypes. Java's `equals` on persons is Dafny's `==`. `isSamePerson` is
  `IsSamePerson`, kept separate from `==`.
- `ModelStubs` (`model_stub.dfy`): the store as a class with a `personList: seq<Person>`
  field. Its mutators reassign the field and state the whole new list. The
  specification functions `IndexOf`, `IndexOfId`, `FindById`, `AnyMatch` and
  `SetPersonResult` say what the lookups and `setPerson` compute. The lemmas relate
  them to each other.
- `RemarkCommands` (`remark_command.dfy`): the command, `Execute` over the store,
  `ExpectedResult` (the specification of `Execute`), and the three JUnit tests as
  methods whose postconditions are the tests' assertions.

Two behaviours of the store are modelled as written:

- The "patient" and "doctor" lookups guard with `person instanceof Person`, which
  holds of every element. So both ignore the role and return exactly what the
  unqualified lookup returns. All three lookups ensure `r == FindById(allPersons, id)`.
- The duplicate check in `setPerson` tests `personList.contains(editedPerson)`, which
  uses `equals`. It does not compare `isSamePerson` against other stored persons.
  `SetPersonAcceptsDomainCollision` proves that an edit which collides with a
  different stored person under `isSamePerson`, and is equal to no stored
  person, is accepted, and that the list then holds two persons that are the
  same person.

## Model

| member | source | states |
|---|---|---|
| `ModelStubs.ModelStubAcceptingAppointmentAdded.constructor` | src/test/java/seedu/address/logic/commands/RemarkCommandTest.java:210 | a new store holds the empty list |
| `ModelStubs.ModelStubAcceptingAppointmentAdded.AddPerson` | src/test/java/seedu/address/logic/commands/RemarkCommandTest.java:219-223 | the new list is the old list with the person appended; there is no uniqueness check |
| `ModelStubs.ModelStubAcceptingAppointmentAdded.AddPersonToList` | src/test/java/seedu/address/logic/commands/RemarkCommandTest.java:254-256 | the same append as `addPerson` |
| `ModelStubs.ModelStubAcceptingAppointmentAdded.ClearList` | src/test/java/seedu/address/logic/commands/RemarkCommandTest.java:225-227 | the list is empty afterwards |
| `ModelStubs.AnyMatch` | src/test/java/seedu/address/logic/commands/RemarkCommandTest.java:216 | the stream `anyMatch(person::isSamePerson)` is true iff some element `s[i]` satisfies `isSamePerson(p, s[i])` |
| `ModelStubs.ModelStubAcceptingAppointmentAdded.HasPerson` | src/test/java/seedu/address/logic/commands/RemarkCommandTest.java:213-217 | `hasPerson(p)` is true iff some stored person is the same person as `p` under domain equality, not under `equals` |
| `ModelStubs.IndexOf` | src/test/java/seedu/address/logic/commands/RemarkCommandTest.java:277 | `indexOf` returns -1 iff the person is absent (by `equals`); otherwise it returns the first position holding an equal person |
| `ModelStubs.FindById` | src/test/java/seedu/address/logic/commands/RemarkCommandTest.java:258-266 | the lookup result is `None` iff no person has the id; otherwise it is the first person in list order with that id |
| `ModelStubs.ModelStubAcceptingAppointmentAdded.GetFilteredPersonById` | src/test/java/seedu/address/logic/commands/RemarkCommandTest.java:258-266 | the loop with early return yields the first person with the id, or `None` |
| `ModelStubs.ModelStubAcceptingAppointmentAdded.GetFilteredPatientById` | src/test/java/seedu/address/logic/commands/RemarkCommandTest.java:229-238 | yields the first person with the id whatever their role (the `instanceof Person` guard is always true), so it returns the same as `GetFilteredPersonById` |
| `ModelStubs.ModelStubAcceptingAppointmentAdded.GetFilteredDoctorById` | src/test/java/seedu/address/logic/commands/RemarkCommandTest.java:240-249 | the same vacuous guard: returns the same as the patient and unqualified lookups |
| `ModelStubs.ModelStubAcceptingAppointmentAdded.GetFilteredPersonList` | src/test/java/seedu/address/logic/commands/RemarkCommandTest.java:250-253 | returns a copy of the whole list, in order |
| `ModelStubs.SetPersonResult` | src/test/java/seedu/address/logic/commands/RemarkCommandTest.java:273-287 | `setPerson` throws `PersonNotFoundException` iff the target is absent. It throws `DuplicatePersonException` iff the target is present, the edit is not the same person as the target, and the list already contains an element equal to the edit. It succeeds iff neither holds. On success the length is kept, the first position of the target holds the edit, and every other position is unchanged |
| `ModelStubs.ModelStubAcceptingAppointmentAdded.SetPerson` | src/test/java/seedu/address/logic/commands/RemarkCommandTest.java:273-287 | the outcome and the new list are those of `SetPersonResult`; on either exception the list is unchanged |
| `ModelStubs.ModelStubAcceptingAppointmentAdded.AddAppointment` | src/test/java/seedu/address/logic/commands/RemarkCommandTest.java:268-271 | the doctor and the patient each gain exactly one appointment record; the two records are identical (time, patient id, doctor id, remark, with the patient id first); nothing else changes |
| `People.AddAppointment` | src/test/java/seedu/address/logic/commands/RemarkCommandTest.java:269-270 | `Person.addAppointment` appends one record with the given time, ids and remark, and keeps every other field |
| `ModelStubs.FindByIdAfterAdd` | src/test/java/seedu/address/logic/commands/RemarkCommandTest.java:219-223 | after `addPerson(p)` a lookup returns what it returned before if that was a person; otherwise it returns `p` exactly when `p` has the id |
| `ModelStubs.HasPersonAfterAdd` | src/test/java/seedu/address/logic/commands/RemarkCommandTest.java:213-223 | after `addPerson(q)`, `hasPerson(p)` holds iff it held before or `p` is the same person as `q` |
| `ModelStubs.ClearedStoreFindsNobody` | src/test/java/seedu/address/logic/commands/RemarkCommandTest.java:225-266 | after `clearList` on a store holding anything, the patient, doctor and unqualified lookups on its list all return `None` and `hasPerson` is false |
| `ModelStubs.SetPersonToItself` | src/test/java/seedu/address/logic/commands/RemarkCommandTest.java:277-286 | replacing a stored person by an equal person succeeds and leaves the list as it was |
| `ModelStubs.SetPersonStoresEdited` | src/test/java/seedu/address/logic/commands/RemarkCommandTest.java:286 | after a successful `setPerson` the edit is in the list and `hasPerson` of it holds |
| `ModelStubs.SetPersonAcceptsDomainCollision` | src/test/java/seedu/address/logic/commands/RemarkCommandTest.java:282-284 | the duplicate check uses `equals`, so an edit that is the same person as a different stored person (but not equal to any stored person) is accepted, leaving two same-person entries |
| `RemarkCommands.ExpectedResult` | src/test/java/seedu/address/logic/commands/RemarkCommandTest.java:36-77 | the command fails with the invalid-index message iff no stored person has the id. Otherwise it succeeds, reporting the first person with the id: "added" iff the remark text is non-empty, "removed" iff it is empty |
| `RemarkCommands.Execute` | src/test/java/seedu/address/logic/commands/RemarkCommandTest.java:36-77 | `execute` reports exactly `ExpectedResult` of the list it started from. It calls `setPerson` exactly when it succeeds, and that call always returns normally (`setPersonOutcome == Some(Pass)`), so no store exception can escape |
| `RemarkCommands.InvalidPatientRemarkThrowsException` | src/test/java/seedu/address/logic/commands/RemarkCommandTest.java:36-46 | on a cleared store, a command for any person's id fails with the invalid-person-displayed-index message |
| `RemarkCommands.ValidPatientRemarkAddedSuccessful` | src/test/java/seedu/address/logic/commands/RemarkCommandTest.java:48-62 | with the patient stored, remark "Headache" yields the add-remark message for that patient |
| `RemarkCommands.ValidPatientEmptyRemarkDeleted` | src/test/java/seedu/address/logic/commands/RemarkCommandTest.java:63-77 | with the patient stored, the empty remark succeeds with the delete-remark message for that patient |

## Left out

- `RemarkCommand`, `Person`, `Remark`, `PersonBuilder`, `Messages` and `CommandResult` are not part of this model. The following are assumed:
  - `equals` on persons compares every field.
  - `isSamePerson` compares the identifying fields. These are reduced to a `name` field and exclude the id, remark and appointments.
  - `Person.addAppointment` appends one record.
  - A remark edit keeps every field but the remark.
- `ModelStubs.ModelStubAcceptingAppointmentAdded.AddAppointment`: does not model mutation in place. Persons are values, so the method returns the two updated persons. What aliasing would cause is not captured: the same object passed as both doctor and patient would get two records, and an object also held in the list would be updated there too.
- `RemarkCommands.Execute`: states only the result, not the store's contents afterwards. The tests assert only the feedback. The body does store the edited person through `setPerson`.
- `RemarkCommands.Execute`: the feedback carries the person the lookup found, before the edit. This follows the tests, which format the expected message with the original `validPatient`. The system's design describes the message as formatted with the edited person; the code is followed here.
- Command lookup role: `Execute` uses the patient lookup. The command's role handling is not visible. Because the stub's three lookups coincide, the choice does not change any outcome.
- Message text: `String.format` and `Person.toString` rendering are left out. Messages are the constructors of `Feedback` and `CommandError`.
- `LocalDateTime` is reduced to its year, month, day, hour and minute, and is only stored.
- The base `ModelStub` and `ModelStubWithAppointment` are left out. No test exercises `ModelStubWithAppointment`. The accepting stub inherits the base stub's remaining members unchanged. Those are left out:
  - user preferences, GUI settings, the address-book file path, `setAddressBook`/`getAddressBook` and `deletePerson`, which throw `AssertionError`;
  - the id-only `getFilteredPersonById(int)`, which returns `null`;
  - `updateFilteredPersonList`, which does nothing. A call to it would leave the store unchanged.
- `ObservableList`/`FXCollections` wrapping is modelled as a plain copy of the sequence.
- `requireNonNull` checks are left out, since Dafny values cannot be null.
- Ids are Java `int`s but are only compared, never computed with, so unbounded `int` is exact.
