// The two read-only queries over the tables: the reminder selection of
// send_reminders and the listing of view_appointments. Both are inner joins of
// appointments with patients on `a.patient_id = p.id`, evaluated as a nested
// loop with the appointments outside and the patients inside.

module Selection {
  import opened Records

  /** One row of `appointments a JOIN patients p ON a.patient_id = p.id`. */
  datatype JoinedRow = JoinedRow(appt: Appointment, patient: Patient)

  /** The join rows one appointment contributes, in patient table order. */
  function JoinOne(a: Appointment, ps: seq<Patient>): seq<JoinedRow>
    decreases |ps|
  {
    if ps == [] then []
    else
      var last := ps[|ps| - 1];
      JoinOne(a, ps[..|ps| - 1]) + (if last.id == a.patientId then [JoinedRow(a, last)] else [])
  }

  /** The whole inner join, appointment by appointment. */
  function Join(ps: seq<Patient>, appts: seq<Appointment>): seq<JoinedRow>
    decreases |appts|
  {
    if appts == [] then [] else Join(ps, appts[..|appts| - 1]) + JoinOne(appts[|appts| - 1], ps)
  }

  /** The columns the reminder query selects from one join row. */
  function ReminderFor(a: Appointment, p: Patient): Reminder
  {
    Reminder(a.id, p.name, p.phone, p.email, a.date, a.doctor)
  }

  /** `WHERE a.reminder_sent = 0` and the column list, applied row by row. */
  function SelectUnsent(rows: seq<JoinedRow>): seq<Reminder>
    decreases |rows|
  {
    if rows == [] then []
    else
      var last := rows[|rows| - 1];
      SelectUnsent(rows[..|rows| - 1]) + (if last.appt.reminderSent then [] else [ReminderFor(last.appt, last.patient)])
  }

  /** The reminder selection of send_reminders. */
  function PendingReminders(ps: seq<Patient>, appts: seq<Appointment>): seq<Reminder>
  {
    SelectUnsent(Join(ps, appts))
  }

  /** One appointment joins to exactly the patients carrying its patient id,
      and to nothing when no patient carries it. */
  lemma {:induction false} JoinOneMembers(a: Appointment, ps: seq<Patient>)
    ensures forall x :: x in JoinOne(a, ps) <==> x.appt == a && x.patient in ps && x.patient.id == a.patientId
    ensures (forall k :: 0 <= k < |ps| ==> ps[k].id != a.patientId) ==> JoinOne(a, ps) == []
    decreases |ps|
  {
    if ps != [] {
      JoinOneMembers(a, ps[..|ps| - 1]);
      assert ps == ps[..|ps| - 1] + [ps[|ps| - 1]];
    }
  }

  /** The join holds a row for each pair of an appointment and a patient whose
      id is the appointment's patient id, and for no other pair. */
  lemma {:induction false} JoinMembers(ps: seq<Patient>, appts: seq<Appointment>)
    ensures forall x :: x in Join(ps, appts) <==> x.appt in appts && x.patient in ps && x.patient.id == x.appt.patientId
    decreases |appts|
  {
    if appts != [] {
      JoinMembers(ps, appts[..|appts| - 1]);
      JoinOneMembers(appts[|appts| - 1], ps);
      assert appts == appts[..|appts| - 1] + [appts[|appts| - 1]];
    }
  }

  /** The filter keeps exactly the rows of appointments not yet reminded, and
      yields nothing when every row's appointment has been reminded. */
  lemma {:induction false} SelectUnsentMembers(rows: seq<JoinedRow>)
    ensures |SelectUnsent(rows)| <= |rows|
    ensures forall r :: r in SelectUnsent(rows) <==>
      exists x :: x in rows && !x.appt.reminderSent && r == ReminderFor(x.appt, x.patient)
    ensures (forall x :: x in rows ==> x.appt.reminderSent) ==> SelectUnsent(rows) == []
    decreases |rows|
  {
    if rows != [] {
      SelectUnsentMembers(rows[..|rows| - 1]);
      assert rows == rows[..|rows| - 1] + [rows[|rows| - 1]];
    }
  }

  /** The selection holds exactly the appointments not yet reminded that join
      to a patient, each paired with that patient's name, phone and email; a
      reminded appointment, or one whose patient id names no patient, yields
      no row, and when no appointment qualifies the selection is empty. */
  lemma PendingMembers(ps: seq<Patient>, appts: seq<Appointment>)
    ensures forall r :: r in PendingReminders(ps, appts) <==>
      exists a, p :: a in appts && p in ps && !a.reminderSent && a.patientId == p.id && r == ReminderFor(a, p)
    ensures (forall a, p :: a in appts && p in ps && a.patientId == p.id ==> a.reminderSent) ==>
      PendingReminders(ps, appts) == []
  {
    var joined := Join(ps, appts);
    JoinMembers(ps, appts);
    SelectUnsentMembers(joined);
    assert forall a, p :: a in appts && p in ps && !a.reminderSent && a.patientId == p.id ==>
      JoinedRow(a, p) in joined;
  }

  /** The selection over one patient and one appointment. */
  lemma SingleBooking(p: Patient, a: Appointment)
    ensures PendingReminders([p], [a]) == if !a.reminderSent && a.patientId == p.id then [ReminderFor(a, p)] else []
  {
    assert [p][..0] == [] && [a][..0] == [];
    var rows := if a.patientId == p.id then [JoinedRow(a, p)] else [];
    assert JoinOne(a, [p]) == rows;
    assert Join([p], [a]) == rows;
    if rows != [] {
      assert rows[..0] == [];
      assert SelectUnsent(rows) == SelectUnsent([]) + (if a.reminderSent then [] else [ReminderFor(a, p)]);
    }
  }

  /** Join rows whose appointment ids strictly increase along the sequence. */
  ghost predicate ApptOrdered(rows: seq<JoinedRow>)
  {
    forall i, j :: 0 <= i < j < |rows| ==> rows[i].appt.id < rows[j].appt.id
  }

  /** With unique patient ids an appointment joins to at most one patient. */
  lemma {:induction false} JoinOneAtMostOne(a: Appointment, ps: seq<Patient>)
    requires PatientIdsAscending(ps)
    ensures |JoinOne(a, ps)| <= 1
    decreases |ps|
  {
    if ps != [] {
      var init, last := ps[..|ps| - 1], ps[|ps| - 1];
      JoinOneAtMostOne(a, init);
      JoinOneMembers(a, init);
      if last.id == a.patientId {
        assert forall k :: 0 <= k < |init| ==> init[k].id != a.patientId;
      }
    }
  }

  /** With unique ids in both tables the join rows come in ascending
      appointment id order. */
  lemma {:induction false} JoinOrdered(ps: seq<Patient>, appts: seq<Appointment>)
    requires PatientIdsAscending(ps) && AppointmentIdsAscending(appts)
    ensures ApptOrdered(Join(ps, appts))
    decreases |appts|
  {
    if appts != [] {
      var init, last := appts[..|appts| - 1], appts[|appts| - 1];
      var front: seq<JoinedRow>, back: seq<JoinedRow> := Join(ps, init), JoinOne(last, ps);
      JoinOrdered(ps, init);
      JoinOneAtMostOne(last, ps);
      JoinMembers(ps, init);
      JoinOneMembers(last, ps);
      assert Join(ps, appts) == front + back;
      forall i, j | 0 <= i < j < |front + back|
        ensures (front + back)[i].appt.id < (front + back)[j].appt.id
      {
        if j >= |front| {
          assert i < |front| && (front + back)[j] == back[0];
          assert back[0] in back;
          assert front[i] in front;
          var k :| 0 <= k < |init| && init[k] == front[i].appt;
          assert appts[k].id < appts[|appts| - 1].id;
        }
      }
    }
  }

  /** Filtering and projecting keeps the ascending appointment id order. */
  lemma {:induction false} SelectOrdered(rows: seq<JoinedRow>)
    requires ApptOrdered(rows)
    ensures forall i, j :: 0 <= i < j < |SelectUnsent(rows)| ==> SelectUnsent(rows)[i].apptId < SelectUnsent(rows)[j].apptId
    decreases |rows|
  {
    if rows != [] {
      var init, last := rows[..|rows| - 1], rows[|rows| - 1];
      var front := SelectUnsent(init);
      var back: seq<Reminder> := if last.appt.reminderSent then [] else [ReminderFor(last.appt, last.patient)];
      SelectOrdered(init);
      SelectUnsentMembers(init);
      assert SelectUnsent(rows) == front + back;
      forall i, j | 0 <= i < j < |front + back|
        ensures (front + back)[i].apptId < (front + back)[j].apptId
      {
        if j >= |front| {
          assert front[i] in front;
          var x :| x in init && !x.appt.reminderSent && front[i] == ReminderFor(x.appt, x.patient);
          var k :| 0 <= k < |init| && init[k] == x;
          assert rows[k].appt.id < rows[|rows| - 1].appt.id;
        }
      }
    }
  }

  /** With unique ids in both tables the selection names each appointment at
      most once (in ascending id order), so one pass makes at most one send
      attempt per appointment. */
  lemma OncePerAppointment(ps: seq<Patient>, appts: seq<Appointment>)
    requires PatientIdsAscending(ps) && AppointmentIdsAscending(appts)
    ensures forall i, j :: 0 <= i < j < |PendingReminders(ps, appts)| ==>
      PendingReminders(ps, appts)[i].apptId < PendingReminders(ps, appts)[j].apptId
  {
    JoinOrdered(ps, appts);
    SelectOrdered(Join(ps, appts));
  }

  /** An appointment already reminded, or one whose patient id matches no
      patient, never appears in the selection. */
  lemma NeverSelected(ps: seq<Patient>, appts: seq<Appointment>, k: nat)
    requires AppointmentIdsAscending(appts)
    requires k < |appts|
    requires appts[k].reminderSent || forall p :: p in ps ==> p.id != appts[k].patientId
    ensures forall r :: r in PendingReminders(ps, appts) ==> r.apptId != appts[k].id
  {
    PendingMembers(ps, appts);
    forall r | r in PendingReminders(ps, appts)
      ensures r.apptId != appts[k].id
    {
      var a, p :| a in appts && p in ps && !a.reminderSent && a.patientId == p.id && r == ReminderFor(a, p);
      var m :| 0 <= m < |appts| && appts[m] == a;
      if m != k {
        assert appts[m].id != appts[k].id;
      }
    }
  }

  /** One row of view_appointments: `(a.id, p.name, a.appointment_date, a.doctor)`. */
  datatype ListingRow = ListingRow(apptId: int, patientName: string, date: string, doctor: string)

  /** The listing columns of each join row, in join order. */
  function ListRows(rows: seq<JoinedRow>): seq<ListingRow>
    decreases |rows|
  {
    if rows == [] then []
    else
      var last := rows[|rows| - 1];
      ListRows(rows[..|rows| - 1]) + [ListingRow(last.appt.id, last.patient.name, last.appt.date, last.appt.doctor)]
  }

  /** The listing of view_appointments. */
  function AppointmentListing(ps: seq<Patient>, appts: seq<Appointment>): seq<ListingRow>
  {
    ListRows(Join(ps, appts))
  }

  /** One listing row per join row, in join order, the k-th projecting the k-th. */
  lemma {:induction false} ListRowsMembers(rows: seq<JoinedRow>)
    ensures |ListRows(rows)| == |rows|
    ensures forall k :: 0 <= k < |rows| ==>
      ListRows(rows)[k] == ListingRow(rows[k].appt.id, rows[k].patient.name, rows[k].appt.date, rows[k].appt.doctor)
    ensures forall l :: l in ListRows(rows) <==>
      exists x :: x in rows && l == ListingRow(x.appt.id, x.patient.name, x.appt.date, x.appt.doctor)
    decreases |rows|
  {
    if rows != [] {
      ListRowsMembers(rows[..|rows| - 1]);
      assert rows == rows[..|rows| - 1] + [rows[|rows| - 1]];
    }
  }

  /** The listing holds every appointment that joins to a patient, reminded or
      not, with that patient's name; orphaned appointments are not listed. */
  lemma ListingMembers(ps: seq<Patient>, appts: seq<Appointment>)
    ensures forall l :: l in AppointmentListing(ps, appts) <==>
      exists a, p :: a in appts && p in ps && a.patientId == p.id && l == ListingRow(a.id, p.name, a.date, a.doctor)
  {
    var joined := Join(ps, appts);
    JoinMembers(ps, appts);
    ListRowsMembers(joined);
    assert forall a, p :: a in appts && p in ps && a.patientId == p.id ==> JoinedRow(a, p) in joined;
  }
}
