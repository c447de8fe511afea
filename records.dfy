// The rows of the two tables created by setup_database, and the rows that the
// reminder pass reads and produces.

module Records {

  /** One row of the `patients` table. The four text columns are NOT NULL only:
      the empty string is a legal value. */
  datatype Patient = Patient(id: int, name: string, dob: string, phone: string, email: string)

  /** One row of the `appointments` table. `patientId` is whatever the caller
      supplied: the foreign key is declared but not enforced. `reminderSent`
      stands for the INTEGER column that is 0 by default and only ever set to 1. */
  datatype Appointment = Appointment(id: int, patientId: int, date: string, doctor: string, reminderSent: bool)

  /** One row of the reminder selection: `(a.id, p.name, p.phone, p.email,
      a.appointment_date, a.doctor)`. */
  datatype Reminder = Reminder(apptId: int, name: string, phone: string, email: string, date: string, doctor: string)

  /** What one call of the mail sender is handed, together with the body it composes. */
  datatype SendAttempt = SendAttempt(name: string, email: string, date: string, doctor: string, body: string)

  /** Patient ids strictly increase in table order, so no two patients share one. */
  ghost predicate PatientIdsAscending(ps: seq<Patient>)
  {
    forall i, j :: 0 <= i < j < |ps| ==> ps[i].id < ps[j].id
  }

  /** Appointment ids strictly increase in table order, so no two appointments share one. */
  ghost predicate AppointmentIdsAscending(appts: seq<Appointment>)
  {
    forall i, j :: 0 <= i < j < |appts| ==> appts[i].id < appts[j].id
  }

  /** The patient ids are the ones an AUTOINCREMENT key hands out: positive,
      ascending, and never above `last`, the largest id issued so far. */
  ghost predicate PatientIdsIssued(ps: seq<Patient>, last: int)
  {
    PatientIdsAscending(ps) && forall i :: 0 <= i < |ps| ==> 0 < ps[i].id <= last
  }

  /** The same for the appointments table. */
  ghost predicate AppointmentIdsIssued(appts: seq<Appointment>, last: int)
  {
    AppointmentIdsAscending(appts) && forall i :: 0 <= i < |appts| ==> 0 < appts[i].id <= last
  }
}
