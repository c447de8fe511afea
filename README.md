# Reminder bookkeeping of the medical appointment scheduler

This project models the reminder bookkeeping of `medical.py` in Dafny. That code is a small
sequential state machine over two SQLite tables:

- `patients(id, name, dob, phone, email)`;
- `appointments(id, patient_id, appointment_date, doctor, reminder_sent)`.

Each table has an `INTEGER PRIMARY KEY AUTOINCREMENT` id. `add_patient` and
`schedule_appointment` insert rows. `send_reminders` selects every appointment whose
`reminder_sent` is 0 and that joins to a patient. For each selected row it makes one mail
attempt through `send_email_reminder`, then sets the row's `reminder_sent` to 1.
`view_patients` and `view_appointments` are read-only listings.

The store is the class `Clinic.Store`, held in memory:

- the two tables are `seq` fields;
- each AUTOINCREMENT counter (the table's `sqlite_sequence` entry) is a `nat` field;
- the mail attempts made so far are a ghost log.

The queries and the message template are pure functions over the tables:

- `Selection.PendingReminders` is the reminder query;
- `Selection.AppointmentListing` is the listing query;
- `Notice.ReminderBody` is the message body;
- `Marking.MarkAll` is the updates of one pass.

Lemmas prove what these functions mean. The methods of the store are proved against the
functions.

What is proved:

- Fresh ids. A new patient or appointment gets an id above every id already in its table.
  Ids stay positive and strictly ascending, so no two rows share an id.
- Selection. The selection holds exactly the unsent appointments that join to a patient, each
  with that patient's name, phone and email. Reminded appointments and orphaned appointments
  (whose patient id matches no patient) never appear. With unique ids, no appointment appears
  twice.
- The pass. Each selected row gets exactly one send attempt, with the row's name, email, date,
  doctor and the template body. Each selected row is then marked. Nothing else changes. The
  returned `reminders_sent` equals the number of attempts and the size of the selection.
- Monotonicity. No operation clears a flag, and existing rows keep every other column.
- Idempotence. After a pass nothing is left to select, so a second pass makes no attempt.

## What the code does not guarantee

Some guarantees a reader of `medical.py` might expect do not hold. The model follows the code:

- Failed deliveries are still marked. `send_email_reminder` catches every exception and only
  prints it (medical.py:61-62). `send_reminders` marks each selected row whatever became of
  the attempt (medical.py:70-71). No failure leaves a row pending. So the model's send step
  has no result and the pass marks unconditionally.
- Orphaned appointments are accepted. `schedule_appointment` does not check the patient id
  (medical.py:41-44). SQLite does not enforce the declared foreign key by default. The
  appointment is stored and the inner join leaves it out of every pass.
  `Clinic.OrphanAdopted` shows a consequence: once a patient is later added under that id,
  the next pass does send the reminder. So a pass can send a reminder for an appointment
  that an earlier pass skipped, when a patient is added between the two passes.
- Empty strings are accepted. The columns are only `NOT NULL`.
- There is no run report. `reminders_sent` is a local that is never returned. The model
  returns it from `SendReminders`.
- Neither insert returns the new id. The model's `AddPatient` and `ScheduleAppointment` return
  nothing either. Their contracts give the new id as the updated counter.

## Model

| member | source | states |
|---|---|---|
| `Clinic.Store.constructor` | medical.py:10-32 | setup_database drops and recreates both tables: both start empty, both counters start at 0, nothing has been sent |
| `Clinic.Store.AddPatient` | medical.py:36-39 | appends exactly one patient with the given columns. Its id is the old counter plus 1, above every existing patient id. The id invariant is kept. Appointments, their counter and the send log are unchanged |
| `Clinic.Store.ScheduleAppointment` | medical.py:41-44 | appends exactly one appointment with the given patient id, date and doctor and `reminderSent` false, under a fresh id above every existing one. No check that the patient exists. Patients are unchanged and no flag is cleared |
| `Clinic.Store.SendEmailReminder` | medical.py:46-62 | records exactly one attempt: the name, address, date and doctor, and the body the template builds from them. It reports no outcome, since every failure is swallowed |
| `Clinic.Store.SendReminders` | medical.py:64-72 | from the selection taken at the start: the log grows by one attempt per selected row, in order. The appointments become exactly the old ones with the selected ids marked. The returned count is the size of the selection. Patients and counters are unchanged, no flag is cleared, and afterwards nothing is left to select |
| `Clinic.Store.ViewPatients` | medical.py:74-78 | returns the whole patients table, in strictly ascending id order |
| `Clinic.Store.ViewAppointments` | medical.py:80-84 | returns the appointment listing of the current tables |
| `Selection.JoinOneMembers` | medical.py:66 | one appointment joins to exactly the patients that carry its patient id, and to no row when none does |
| `Selection.JoinMembers` | medical.py:66 | the join `a.patient_id = p.id` has a row for a pair of an appointment and a patient exactly when the patient's id is the appointment's patient id |
| `Selection.SelectUnsentMembers` | medical.py:66 | `WHERE a.reminder_sent = 0` keeps exactly the join rows of unsent appointments, projected to the six selected columns. It yields nothing when every row is sent |
| `Selection.PendingMembers` | medical.py:66 | a row is selected exactly when its appointment is unsent and some patient has its patient id, paired with that patient's name, phone and email (both directions). When no unsent appointment joins, the selection is empty |
| `Selection.NeverSelected` | medical.py:66 | with unique appointment ids, an appointment already reminded, or one whose patient id names no patient, has no row in the selection |
| `Selection.JoinOneAtMostOne` | medical.py:66 | with unique patient ids, an appointment joins to at most one patient |
| `Selection.OncePerAppointment` | medical.py:66 | with unique ids in both tables, the selection names each appointment at most once, in ascending appointment id order |
| `Selection.ListingMembers` | medical.py:82 | a listing row exists exactly when some appointment joins to a patient, whether reminded or not. The row is (id, patient name, date, doctor). Orphaned appointments are not listed |
| `Selection.ListRowsMembers` | medical.py:82 | the listing has one row per join row, in join order: the k-th row is the projection of the k-th join row (id, patient name, date, doctor), and every listed row is such a projection |
| `Notice.BodyLayout` | medical.py:52 | the body is "Dear " + name + ",\n\nThis is a reminder for your appointment with Dr. " + doctor + " on " + date + ".\n\nThank you.": each piece at its position, and nothing else |
| `Notice.BodyNamesDoctorAndDate` | medical.py:52 | the body carries the phrase "Dr. " + doctor + " on " + date just before the closing |
| `Notice.Attempts` | medical.py:68-70 | one pass makes exactly one attempt per selected row |
| `Notice.AttemptsInRowOrder` | medical.py:68-70 | the k-th attempt of a pass uses the k-th selected row's name, email, date and doctor, and the body built from them |
| `Marking.MarkAllMarks` | medical.py:71 | after a pass's updates, an appointment is marked exactly when it was marked before or its id was selected. Every other column, and every unselected appointment, is unchanged. The only value ever written is 1 |
| `Marking.MarkAllKeepsIds` | medical.py:71 | the updates change no id, so the ids remain as AUTOINCREMENT issued them |
| `Marking.SecondPassSelectsNothing` | medical.py:66-71 | once a pass has marked its selection, the same query over the same patients selects nothing |
| `Marking.PassEffects` | medical.py:64-72 | one whole pass keeps the ids as issued, clears no flag, and leaves nothing to select |
| `Clinic.OneAppointmentTwoPasses` | medical.py:36-72 | on a fresh store with one patient and one appointment for that patient, the first pass makes one attempt, carrying the patient's name and email, the date, the doctor and the template body, and the second makes none; the appointment ends marked |
| `Clinic.OrphanSkipped` | medical.py:41-72 | an appointment booked for a patient id no patient has gets no attempt and stays unmarked |
| `Clinic.OrphanAdopted` | medical.py:36-72 | once a patient with the orphan's patient id is added, the next pass sends its reminder |

Helpers without a row: `Selection.SingleBooking`, `Selection.JoinOrdered`,
`Selection.SelectOrdered`, `Notice.AttemptsStep` and `Marking.MarkAllStep`. They are
intermediate steps of the proofs above.

The join is evaluated as a nested loop: appointments outside, in table order, and patients
inside. SQLite leaves the row order of a query without `ORDER BY` to its planner, so this
order is the model's choice. The row orders of the send log and of `ViewAppointments` rest on
this choice, and so does `OncePerAppointment`. `ViewPatients` returns the patients in table
(rowid) order, which is ascending id order; the query at medical.py:76 has no `ORDER BY`
either, so that order is likewise the model's choice.

## Left out

- The tkinter window: entries, buttons, message boxes, and the listing text built from the
  query results. This is UI.
- Connections and transactions: opening and closing connections, the implicit commit of each
  `with` block, and file persistence. The store is one in-memory state; the
  constructor stands for a fresh `setup_database`.
- The SMTP and MIME work: headers, server, STARTTLS, login, `sendmail` and `quit`. These are
  network I/O through library calls. A send is the attempt recorded in the ghost log. Its
  outcome is not modelled, because the code discards it.
- The `print` of a delivery failure. This is I/O.
- SQLite type affinity: the user's text patient id is stored as an integer. The model takes an
  `int` patient id. A non-numeric id would be stored as text, match no patient, and behave
  like any other orphan.
- The 64-bit limit on AUTOINCREMENT ids, past which SQLite refuses the insert. Counters are
  unbounded.
- How the cursor and the updates interleave. `send_reminders` updates rows while iterating
  its cursor on the same connection. The model takes the whole selection first and then
  processes it. This assumes that each update touches only a row the cursor has already
  passed, which is what the code intends.
- The row order of the two listings and of the reminder query. None of the queries has an
  `ORDER BY`, so SQLite may return rows in any order. The model fixes one order: table order
  for `ViewPatients`, and appointments outside with patients inside for the join behind
  `ViewAppointments` and `SendReminders`. Which rows are returned does not depend on it.
- Concurrency, locking, timeouts, validation errors, reference errors and a run report. The
  code has none of them.
