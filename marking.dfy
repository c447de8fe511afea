// The one write the core makes to an existing row: setting reminder_sent to 1.

module Marking {
  import opened Records
  import opened Selection

  /** `UPDATE appointments SET reminder_sent = 1 WHERE id = ?`. */
  function MarkSent(appts: seq<Appointment>, id: int): seq<Appointment>
  {
    seq(|appts|, i requires 0 <= i < |appts| =>
      if appts[i].id == id then appts[i].(reminderSent := true) else appts[i])
  }

  /** The appointment ids a sequence of selected rows names. */
  function ApptIds(rows: seq<Reminder>): set<int>
  {
    set r | r in rows :: r.apptId
  }

  /** The updates of a whole pass over `rows`, one per row in row order. */
  function MarkAll(appts: seq<Appointment>, rows: seq<Reminder>): seq<Appointment>
    decreases |rows|
  {
    if rows == [] then appts else MarkSent(MarkAll(appts, rows[..|rows| - 1]), rows[|rows| - 1].apptId)
  }

  /** After the updates of a pass over `rows`, each appointment whose id some
      row names is marked; every other appointment, and every column but the
      flag, is left as it was. */
  lemma {:induction false} MarkAllMarks(appts: seq<Appointment>, rows: seq<Reminder>)
    ensures |MarkAll(appts, rows)| == |appts|
    ensures forall i :: 0 <= i < |appts| ==>
      MarkAll(appts, rows)[i] == appts[i].(reminderSent := appts[i].reminderSent || appts[i].id in ApptIds(rows))
    decreases |rows|
  {
    if rows != [] {
      var last := rows[|rows| - 1];
      MarkAllMarks(appts, rows[..|rows| - 1]);
      assert rows == rows[..|rows| - 1] + [last];
      assert ApptIds(rows) == ApptIds(rows[..|rows| - 1]) + {last.apptId};
    }
  }

  /** Marking changes no id, so the ids stay as the AUTOINCREMENT keys issued them. */
  lemma MarkAllKeepsIds(appts: seq<Appointment>, rows: seq<Reminder>, last: int)
    requires AppointmentIdsIssued(appts, last)
    ensures AppointmentIdsIssued(MarkAll(appts, rows), last)
  {
  }

  /** One more row of the pass is one more update. */
  lemma MarkAllStep(appts: seq<Appointment>, rows: seq<Reminder>, i: nat)
    requires i < |rows|
    ensures MarkAll(appts, rows[..i + 1]) == MarkSent(MarkAll(appts, rows[..i]), rows[i].apptId)
  {
    assert rows[..i + 1][..i] == rows[..i];
  }

  /** `after` is `before` with possibly more rows at the end, where no row of
      `before` has changed except that an unset flag may have been set: a
      flag is never cleared. */
  ghost predicate FlagsOnlyRise(before: seq<Appointment>, after: seq<Appointment>)
  {
    |before| <= |after| &&
    forall i :: 0 <= i < |before| ==>
      after[i].(reminderSent := before[i].reminderSent) == before[i] &&
      (before[i].reminderSent ==> after[i].reminderSent)
  }

  /** Once every selected appointment is marked, the same selection over the
      same patients finds nothing: a second pass sends no reminder. */
  lemma SecondPassSelectsNothing(ps: seq<Patient>, appts: seq<Appointment>)
    ensures PendingReminders(ps, MarkAll(appts, PendingReminders(ps, appts))) == []
  {
    var rows := PendingReminders(ps, appts);
    var after := MarkAll(appts, rows);
    PendingMembers(ps, appts);
    PendingMembers(ps, after);
    MarkAllMarks(appts, rows);
    forall a, p | a in after && p in ps && a.patientId == p.id
      ensures a.reminderSent
    {
      var i :| 0 <= i < |after| && after[i] == a;
      if !appts[i].reminderSent {
        assert appts[i] in appts;
        assert ReminderFor(appts[i], p) in rows;
      }
    }
  }

  /** What one whole pass leaves behind: the ids as issued, no flag cleared,
      and nothing left to select. */
  lemma PassEffects(ps: seq<Patient>, appts: seq<Appointment>, last: int)
    requires AppointmentIdsIssued(appts, last)
    ensures var after := MarkAll(appts, PendingReminders(ps, appts));
      AppointmentIdsIssued(after, last) && FlagsOnlyRise(appts, after) && PendingReminders(ps, after) == []
  {
    MarkAllKeepsIds(appts, PendingReminders(ps, appts), last);
    MarkAllMarks(appts, PendingReminders(ps, appts));
    SecondPassSelectsNothing(ps, appts);
  }
}
