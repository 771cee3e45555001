/** The in-memory person store that the remark-command tests run against
    (`ModelStubAcceptingAppointmentAdded`): an `ArrayList<Person>` with append,
    clear, domain-equality membership, first-match lookups by id, a checked
    replace, and appointment linking. */
module ModelStubs {
  import opened Wrappers
  import opened People

  /** The two runtime exceptions `setPerson` may throw. */
  datatype StoreError = PersonNotFound | DuplicatePerson

  /** `List.indexOf(t)`: the first position holding a person equal to `t`, or -1. */
  function IndexOf(s: seq<Person>, t: Person): (k: int)
    ensures -1 <= k < |s|
    ensures k == -1 <==> t !in s
    ensures 0 <= k ==> s[k] == t && forall j :: 0 <= j < k ==> s[j] != t
  {
    if s == [] then -1
    else if s[0] == t then 0
    else
      var k := IndexOf(s[1..], t);
      if k == -1 then -1 else k + 1
  }

  /** The first position holding a person with the given id, or -1. */
  function IndexOfId(s: seq<Person>, id: int): (k: int)
    ensures -1 <= k < |s|
    ensures k == -1 <==> forall j :: 0 <= j < |s| ==> s[j].id != id
    ensures 0 <= k ==> s[k].id == id && forall j :: 0 <= j < k ==> s[j].id != id
  {
    if s == [] then -1
    else if s[0].id == id then 0
    else
      var k := IndexOfId(s[1..], id);
      if k == -1 then -1 else k + 1
  }

  /** What the id lookups return: the first person in list order whose id is
      `id`, or `None` (Java's `null`) when no person has that id. */
  function FindById(s: seq<Person>, id: int): (r: Option<Person>)
    ensures r.None? <==> forall j :: 0 <= j < |s| ==> s[j].id != id
    ensures r.Some? ==> r.value.id == id && r.value in s
    ensures r.Some? ==> exists k :: 0 <= k < |s| && s[k] == r.value && forall j :: 0 <= j < k ==> s[j].id != id
  {
    var k := IndexOfId(s, id);
    if k == -1 then None else Some(s[k])
  }

  /** `s.stream().anyMatch(p::isSamePerson)`. */
  function AnyMatch(s: seq<Person>, p: Person): (b: bool)
    ensures b <==> exists i :: 0 <= i < |s| && IsSamePerson(p, s[i])
  {
    if s == [] then false
    else IsSamePerson(p, s[0]) || AnyMatch(s[1..], p)
  }

  /** What `setPerson(target, edited)` does to the list `s`: the new list, or the
      exception it throws (in which case the list is left as it was). */
  function SetPersonResult(s: seq<Person>, target: Person, edited: Person): (r: Result<seq<Person>, StoreError>)
    ensures r == Failure(PersonNotFound) <==> target !in s
    ensures r == Failure(DuplicatePerson) <==> target in s && !IsSamePerson(target, edited) && edited in s
    ensures r.Success? <==> target in s && (IsSamePerson(target, edited) || edited !in s)
    ensures r.Success? ==>
      var k := IndexOf(s, target);
      && |r.value| == |s|
      && s[k] == target && (forall j :: 0 <= j < k ==> s[j] != target)
      && r.value[k] == edited
      && forall j :: 0 <= j < |s| && j != k ==> r.value[j] == s[j]
  {
    var index := IndexOf(s, target);
    if index == -1 then Failure(PersonNotFound)
    else if !IsSamePerson(target, edited) && edited in s then Failure(DuplicatePerson)
    else Success(s[index := edited])
  }

  class ModelStubAcceptingAppointmentAdded {
    var personList: seq<Person>

    constructor ()
      ensures personList == []
    {
      personList := [];
    }

    /** `hasPerson`: some stored person is the same person as `person`. */
    function HasPerson(person: Person): (b: bool)
      reads this
      ensures b <==> exists i :: 0 <= i < |personList| && IsSamePerson(person, personList[i])
    {
      AnyMatch(personList, person)
    }

    /** `addPerson`: appends, with no uniqueness check. */
    method AddPerson(person: Person)
      modifies this
      ensures personList == old(personList) + [person]
    {
      personList := personList + [person];
    }

    /** `addPersonToList`: the same append, without the null check. */
    method AddPersonToList(person: Person)
      modifies this
      ensures personList == old(personList) + [person]
    {
      personList := personList + [person];
    }

    method ClearList()
      modifies this
      ensures personList == []
    {
      personList := [];
    }

    /** `getFilteredPersonList`: a copy of the whole list, in order. */
    method GetFilteredPersonList() returns (list: seq<Person>)
      ensures list == personList
    {
      list := personList;
    }

    /** `getFilteredPatientById`: despite its name, the guard `person instanceof Person`
        holds of every element, so the role is not looked at. */
    method GetFilteredPatientById(allPersons: seq<Person>, id: int) returns (r: Option<Person>)
      ensures r == FindById(allPersons, id)
      ensures r.Some? ==> r.value.id == id
    {
      for i := 0 to |allPersons|
        invariant forall j :: 0 <= j < i ==> allPersons[j].id != id
      {
        if allPersons[i].id == id {
          return Some(allPersons[i]);
        }
      }
      return None;
    }

    /** `getFilteredDoctorById`: the same vacuous `instanceof Person` guard, so it
        returns exactly what the patient lookup returns. */
    method GetFilteredDoctorById(allPersons: seq<Person>, id: int) returns (r: Option<Person>)
      ensures r == FindById(allPersons, id)
      ensures r.Some? ==> r.value.id == id
    {
      for i := 0 to |allPersons|
        invariant forall j :: 0 <= j < i ==> allPersons[j].id != id
      {
        if allPersons[i].id == id {
          return Some(allPersons[i]);
        }
      }
      return None;
    }

    /** `getFilteredPersonById`: first person with the id, whatever the role. */
    method GetFilteredPersonById(allPersons: seq<Person>, id: int) returns (r: Option<Person>)
      ensures r == FindById(allPersons, id)
      ensures r.Some? ==> r.value.id == id
    {
      for i := 0 to |allPersons|
        invariant forall j :: 0 <= j < i ==> allPersons[j].id != id
      {
        if allPersons[i].id == id {
          return Some(allPersons[i]);
        }
      }
      return None;
    }

    /** `addAppointment`: one record on the doctor, then the same record on the
        patient; both carry the patient's id first and the doctor's id second.
        The two persons are values here, so the updated ones are returned. */
    method AddAppointment(time: DateTime, patient: Person, doctor: Person, remark: string)
      returns (doctor': Person, patient': Person)
      ensures doctor'.appointments == doctor.appointments + [Appointment(time, patient.id, doctor.id, remark)]
      ensures patient'.appointments == patient.appointments + [Appointment(time, patient.id, doctor.id, remark)]
      ensures doctor'.appointments[|doctor.appointments|] == patient'.appointments[|patient.appointments|]
      ensures doctor'.(appointments := doctor.appointments) == doctor
      ensures patient'.(appointments := patient.appointments) == patient
    {
      doctor' := People.AddAppointment(doctor, time, patient.id, doctor.id, remark);
      patient' := People.AddAppointment(patient, time, patient.id, doctor.id, remark);
    }

    /** `setPerson`: replaces the first element equal to `target` by `editedPerson`;
        throws, leaving the list as it was, when `target` is absent or when
        `editedPerson` is already in the list (by `equals`) and is not the same
        person as `target`. */
    method SetPerson(target: Person, editedPerson: Person) returns (outcome: Outcome<StoreError>)
      modifies this
      ensures match SetPersonResult(old(personList), target, editedPerson)
        case Success(s) => outcome == Pass && personList == s
        case Failure(e) => outcome == Fail(e) && personList == old(personList)
    {
      var index := IndexOf(personList, target);
      if index == -1 {
        return Fail(PersonNotFound);
      }
      if !IsSamePerson(target, editedPerson) && editedPerson in personList {
        return Fail(DuplicatePerson);
      }
      personList := personList[index := editedPerson];
      return Pass;
    }
  }

  /** After `addPerson(p)` a lookup still finds the person it found before; only
      when no earlier person has the id can it find `p`. */
  lemma FindByIdAfterAdd(s: seq<Person>, p: Person, id: int)
    ensures FindById(s + [p], id) ==
      if FindById(s, id).Some? then FindById(s, id)
      else if p.id == id then Some(p) else None
  {
    var t := s + [p];
    var k := IndexOfId(s, id);
    if k >= 0 {
      assert t[k] == s[k];
      assert forall j :: 0 <= j < k ==> t[j] == s[j];
    } else {
      assert forall j :: 0 <= j < |s| ==> t[j] == s[j];
      assert t[|s|] == p;
    }
  }

  /** After `addPerson(q)`, `hasPerson(p)` holds exactly when it held before or
      `q` is the same person as `p`. */
  lemma HasPersonAfterAdd(s: seq<Person>, q: Person, p: Person)
    ensures AnyMatch(s + [q], p) <==> AnyMatch(s, p) || IsSamePerson(p, q)
  {
    var t := s + [q];
    assert t[|s|] == q;
    if AnyMatch(s, p) {
      var i :| 0 <= i < |s| && IsSamePerson(p, s[i]);
      assert t[i] == s[i];
    }
    if AnyMatch(t, p) && !IsSamePerson(p, q) {
      var i :| 0 <= i < |t| && IsSamePerson(p, t[i]);
      assert i < |s| && t[i] == s[i];
    }
  }

  /** After `clearList`, none of the three lookups finds anybody in the store's
      list and `hasPerson` is false, whatever the store held before. */
  method ClearedStoreFindsNobody(model: ModelStubAcceptingAppointmentAdded, p: Person, id: int)
    returns (patient: Option<Person>, doctor: Option<Person>, person: Option<Person>, has: bool)
    modifies model
    ensures patient == None && doctor == None && person == None && !has
    ensures model.personList == []
  {
    model.ClearList();
    var list := model.GetFilteredPersonList();
    patient := model.GetFilteredPatientById(list, id);
    doctor := model.GetFilteredDoctorById(list, id);
    person := model.GetFilteredPersonById(list, id);
    has := model.HasPerson(p);
  }

  /** Replacing a stored person by itself succeeds and leaves the list as it was. */
  lemma SetPersonToItself(s: seq<Person>, target: Person)
    requires target in s
    ensures SetPersonResult(s, target, target) == Success(s)
  {
    var k := IndexOf(s, target);
    assert s[k := target] == s;
  }

  /** After a successful `setPerson`, the edited person is stored and `hasPerson`
      of it holds. */
  lemma SetPersonStoresEdited(s: seq<Person>, target: Person, edited: Person)
    requires SetPersonResult(s, target, edited).Success?
    ensures edited in SetPersonResult(s, target, edited).value
    ensures AnyMatch(SetPersonResult(s, target, edited).value, edited)
  {
  }

  /** The duplicate check compares by `equals`, not by `isSamePerson`: an edit
      that makes the target the same person as a different stored person is
      accepted, and the list then holds two persons that are the same person. */
  lemma SetPersonAcceptsDomainCollision(s: seq<Person>, target: Person, other: Person, edited: Person)
    requires target in s && other in s && other != target
    requires IsSamePerson(edited, other) && edited !in s
    ensures SetPersonResult(s, target, edited).Success?
    ensures var t := SetPersonResult(s, target, edited).value;
      exists i, j :: 0 <= i < |t| && 0 <= j < |t| && i != j && IsSamePerson(t[i], t[j])
  {
  }
}
