// The in-memory store behind medical.py: the patients and appointments tables
// with their AUTOINCREMENT counters, the two inserts, the reminder pass, and the
// two listings.

module Clinic {
  import opened Records
  import opened Selection
  import opened Notice
  import opened Marking

  class Store {
    var patients: seq<Patient>
    var appointments: seq<Appointment>
    /** The largest id either table's AUTOINCREMENT key has handed out (its
        `sqlite_sequence` entry; 0 while the table is still empty). */
    var patientSeq: nat
    var appointmentSeq: nat
    /** Every call of the mail sender so far, in call order. */
    ghost var sendLog: seq<SendAttempt>

    ghost predicate Valid()
      reads this
    {
      PatientIdsIssued(patients, patientSeq) && AppointmentIdsIssued(appointments, appointmentSeq)
    }

    /** What the reminder query would select right now. */
    function Pending(): seq<Reminder>
      reads this
    {
      PendingReminders(patients, appointments)
    }

    /** setup_database: both tables dropped and created afresh, so both are
        empty and both counters start again. */
    constructor ()
      ensures Valid()
      ensures patients == [] && appointments == []
      ensures patientSeq == 0 && appointmentSeq == 0
      ensures sendLog == []
    {
      patients, appointments := [], [];
      patientSeq, appointmentSeq := 0, 0;
      sendLog := [];
    }

    /** add_patient: one new patient row under a fresh id, above every id
        already in the table; nothing is checked, and nothing else changes. */
    method AddPatient(name: string, dob: string, phone: string, email: string)
      requires Valid()
      modifies this
      ensures Valid()
      ensures patientSeq == old(patientSeq) + 1
      ensures patients == old(patients) + [Patient(patientSeq, name, dob, phone, email)]
      ensures forall p :: p in old(patients) ==> p.id < patientSeq
      ensures appointments == old(appointments) && appointmentSeq == old(appointmentSeq)
      ensures sendLog == old(sendLog)
    {
      patientSeq := patientSeq + 1;
      patients := patients + [Patient(patientSeq, name, dob, phone, email)];
      assert forall i :: 0 <= i < |patients| - 1 ==> patients[i] == old(patients)[i];

    }

    /** schedule_appointment: one new appointment row under a fresh id, with
        the reminder flag at its default, unset. The patient id is stored as
        given, whether or not a patient has it. */
    method ScheduleAppointment(patientId: int, date: string, doctor: string)
      requires Valid()
      modifies this
      ensures Valid()
      ensures appointmentSeq == old(appointmentSeq) + 1
      ensures appointments == old(appointments) + [Appointment(appointmentSeq, patientId, date, doctor, false)]
      ensures forall a :: a in old(appointments) ==> a.id < appointmentSeq
      ensures FlagsOnlyRise(old(appointments), appointments)
      ensures patients == old(patients) && patientSeq == old(patientSeq)
      ensures sendLog == old(sendLog)
    {
      appointmentSeq := appointmentSeq + 1;
      appointments := appointments + [Appointment(appointmentSeq, patientId, date, doctor, false)];
      assert forall i :: 0 <= i < |appointments| - 1 ==> appointments[i] == old(appointments)[i];
    }

    /** send_email_reminder: one attempt to mail the reminder. Every failure of
        the transport is caught and only printed, so the caller learns nothing
        of the outcome; what the model keeps is the attempt itself. */
    method SendEmailReminder(name: string, email: string, date: string, doctor: string)
      modifies this`sendLog
      ensures sendLog == old(sendLog) + [SendAttempt(name, email, date, doctor, ReminderBody(name, date, doctor))]
    {
      sendLog := sendLog + [SendAttempt(name, email, date, doctor, ReminderBody(name, date, doctor))];
    }

    /** send_reminders: one pass over the selection taken at its start. Each
        selected row gets exactly one send attempt and is then marked, whatever
        became of the attempt; the count of rows handled is returned. Nothing
        but the flags of the selected appointments changes, no flag is
        cleared, and afterwards nothing is left to select. */
    method SendReminders() returns (remindersSent: nat)
      requires Valid()
      modifies this
      ensures Valid()
      ensures patients == old(patients) && patientSeq == old(patientSeq) && appointmentSeq == old(appointmentSeq)
      ensures appointments == MarkAll(old(appointments), old(Pending()))
      ensures sendLog == old(sendLog) + Attempts(old(Pending()))
      ensures remindersSent == |old(Pending())|
      ensures FlagsOnlyRise(old(appointments), appointments)
      ensures Pending() == []
    {
      var rows := PendingReminders(patients, appointments);
      remindersSent := 0;
      for i := 0 to |rows|
        invariant patients == old(patients) && patientSeq == old(patientSeq) && appointmentSeq == old(appointmentSeq)
        invariant appointments == MarkAll(old(appointments), rows[..i])
        invariant sendLog == old(sendLog) + Attempts(rows[..i])
        invariant remindersSent == i
      {
        var row := rows[i];
        SendEmailReminder(row.name, row.email, row.date, row.doctor);
        AttemptsStep(rows, i);
        appointments := MarkSent(appointments, row.apptId);
        MarkAllStep(old(appointments), rows, i);
        remindersSent := remindersSent + 1;
      }
      assert rows[..|rows|] == rows;
      PassEffects(patients, old(appointments), appointmentSeq);
    }

    /** view_patients: every patient row, in id order. */
    method ViewPatients() returns (rows: seq<Patient>)
      requires Valid()
      ensures rows == patients
      ensures forall i, j :: 0 <= i < j < |rows| ==> rows[i].id < rows[j].id
    {
      rows := patients;
    }

    /** view_appointments: every appointment that joins to a patient, with the
        patient's name. */
    method ViewAppointments() returns (rows: seq<ListingRow>)
      ensures rows == AppointmentListing(patients, appointments)
    {
      rows := AppointmentListing(patients, appointments);
    }
  }

  /** A fresh store, one patient and one appointment for that patient: the
      first pass makes one send attempt (`attempt`), addressed to the patient
      and naming the doctor and the date, and marks the appointment; the
      second pass makes none and the appointment stays marked. */
  method OneAppointmentTwoPasses(name: string, dob: string, phone: string, email: string, date: string, doctor: string)
    returns (first: nat, second: nat, ghost attempt: SendAttempt, marked: bool)
    ensures first == 1 && second == 0
    ensures attempt == AttemptFor(Reminder(1, name, phone, email, date, doctor))
    ensures attempt.body == ReminderBody(name, date, doctor)
    ensures marked
  {
    var store := new Store();
    store.AddPatient(name, dob, phone, email);
    store.ScheduleAppointment(1, date, doctor);
    var p, a := Patient(1, name, dob, phone, email), Appointment(1, 1, date, doctor, false);
    assert store.patients == [p] && store.appointments == [a];
    SingleBooking(p, a);
    first := store.SendReminders();
    assert store.sendLog == [AttemptFor(ReminderFor(a, p))];
    attempt := store.sendLog[0];
    second := store.SendReminders();
    marked := store.appointments[0].reminderSent;
  }

  /** An appointment booked for a patient id no patient has is stored, but the
      pass skips it: no send attempt, and it stays unmarked. */
  method OrphanSkipped(date: string, doctor: string) returns (sent: nat, unmarked: bool)
    ensures sent == 0 && unmarked
  {
    var store := new Store();
    store.ScheduleAppointment(1, date, doctor);
    var a := Appointment(1, 1, date, doctor, false);
    assert store.patients == [] && store.appointments == [a];
    sent := store.SendReminders();
    assert store.appointments == MarkAll([a], []);
    unmarked := !store.appointments[0].reminderSent;
  }

  /** Once a patient is added under the id an unmarked orphaned appointment
      carries, the next pass does send that appointment's reminder: adding a
      patient between two passes can make the second one send. */
  method OrphanAdopted(name: string, dob: string, phone: string, email: string, date: string, doctor: string)
    returns (sent: nat)
    ensures sent == 1
  {
    var store := new Store();
    store.ScheduleAppointment(1, date, doctor);
    store.AddPatient(name, dob, phone, email);
    var p, a := Patient(1, name, dob, phone, email), Appointment(1, 1, date, doctor, false);
    assert store.patients == [p] && store.appointments == [a];
    SingleBooking(p, a);
    sent := store.SendReminders();
  }
}
