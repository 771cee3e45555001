/** The entities the store holds: persons (patients and doctors), their
    remarks and the appointment records written into them. */
module People {

  /** `java.time.LocalDateTime` as the tests build it with
      `LocalDateTime.of(year, month, day, hour, minute)`; only stored and compared. */
  datatype DateTime = DateTime(year: int, month: int, day: int, hour: int, minute: int)

  /** One appointment record, as `Person.addAppointment` receives it. */
  datatype Appointment = Appointment(time: DateTime, patientId: int, doctorId: int, remark: string)

  /** A remark; the empty text means "no remark". */
  datatype Remark = Remark(value: string)

  datatype Role = Patient | Doctor

  /** A person of the roster. Two `Person` values are `==` exactly when Java's
      `equals` holds of them; `name` stands for the identifying business fields. */
  datatype Person = Person(id: int, name: string, role: Role, remark: Remark, appointments: seq<Appointment>)

  /** `p.isSamePerson(other)`: domain equality, which looks at the identifying
      fields only and ignores the id, the remark and the appointments. */
  predicate IsSamePerson(p: Person, other: Person)
  {
    p.name == other.name
  }

  /** The copy of `p` that a remark edit produces: everything but the remark kept. */
  function WithRemark(p: Person, remark: Remark): (q: Person)
    ensures q.remark == remark
    ensures q.id == p.id && q.role == p.role && q.appointments == p.appointments
    ensures IsSamePerson(p, q) && IsSamePerson(q, p)
  {
    p.(remark := remark)
  }

  /** `p.addAppointment(time, patientId, doctorId, remark)`: one record appended
      to `p`'s appointments, every other field kept. */
  function AddAppointment(p: Person, time: DateTime, patientId: int, doctorId: int, remark: string): (q: Person)
    ensures |q.appointments| == |p.appointments| + 1
    ensures q.appointments[|p.appointments|] == Appointment(time, patientId, doctorId, remark)
    ensures q.appointments[..|p.appointments|] == p.appointments
    ensures q.id == p.id && q.name == p.name && q.role == p.role && q.remark == p.remark
  {
    p.(appointments := p.appointments + [Appointment(time, patientId, doctorId, remark)])
  }
}
