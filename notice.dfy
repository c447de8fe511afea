// The reminder message of send_email_reminder and the send attempts of one
// reminder pass. The mail transport itself is not modelled: an attempt is the
// data handed to it.

module Notice {
  import opened Records

  const SALUTATION := "Dear "
  const LEAD := ",\n\nThis is a reminder for your appointment with Dr. "
  const JOINER := " on "
  const CLOSING := ".\n\nThank you."

  /** The plain-text body of a reminder, as send_email_reminder formats it. */
  function ReminderBody(name: string, date: string, doctor: string): string
  {
    SALUTATION + name + LEAD + doctor + JOINER + date + CLOSING
  }

  /** The body opens with "Dear " and the name, follows it with the fixed lead
      text, carries the doctor, " on " and the date, and closes with
      ".\n\nThank you."; nothing else is in it. */
  lemma BodyLayout(name: string, date: string, doctor: string)
    ensures var body := ReminderBody(name, date, doctor);
      |body| == |SALUTATION| + |name| + |LEAD| + |doctor| + |JOINER| + |date| + |CLOSING| &&
      body[..|SALUTATION|] == SALUTATION &&
      body[|SALUTATION|..|SALUTATION| + |name|] == name &&
      body[|SALUTATION| + |name|..|SALUTATION| + |name| + |LEAD|] == LEAD &&
      body[|SALUTATION| + |name| + |LEAD|..|body| - |CLOSING| - |date|] == doctor + JOINER &&
      body[|body| - |CLOSING| - |date|..|body| - |CLOSING|] == date &&
      body[|body| - |CLOSING|..] == CLOSING
  {
  }

  /** The lead text ends in "Dr. ", so the body names the doctor and the date
      as one phrase, "Dr. " + doctor + " on " + date, just before the closing. */
  lemma BodyNamesDoctorAndDate(name: string, date: string, doctor: string)
    ensures var body, at := ReminderBody(name, date, doctor), |SALUTATION| + |name| + |LEAD| - 4;
      body[at..|body| - |CLOSING|] == "Dr. " + doctor + JOINER + date
  {
    var body := ReminderBody(name, date, doctor);
    var at := |SALUTATION| + |name| + |LEAD| - 4;
    BodyLayout(name, date, doctor);
    assert LEAD[|LEAD| - 4..] == "Dr. ";
    assert body[at..|SALUTATION| + |name| + |LEAD|] == LEAD[|LEAD| - 4..];
    assert body[at..|body| - |CLOSING|]
        == body[at..|SALUTATION| + |name| + |LEAD|]
         + body[|SALUTATION| + |name| + |LEAD|..|body| - |CLOSING| - |date|]
         + body[|body| - |CLOSING| - |date|..|body| - |CLOSING|];
  }

  /** The one call of the mail sender made for a selected row: the row's name,
      email, date and doctor, and the body built from them. The phone number is
      selected but not passed on. */
  function AttemptFor(row: Reminder): SendAttempt
  {
    SendAttempt(row.name, row.email, row.date, row.doctor, ReminderBody(row.name, row.date, row.doctor))
  }

  /** The send attempts of a pass over `rows`: one per row, in row order. */
  function Attempts(rows: seq<Reminder>): (log: seq<SendAttempt>)
    ensures |log| == |rows|
    decreases |rows|
  {
    if rows == [] then [] else Attempts(rows[..|rows| - 1]) + [AttemptFor(rows[|rows| - 1])]
  }

  /** The k-th attempt of a pass is made for the k-th selected row. */
  lemma {:induction false} AttemptsInRowOrder(rows: seq<Reminder>)
    ensures forall k :: 0 <= k < |rows| ==> Attempts(rows)[k] == AttemptFor(rows[k])
    decreases |rows|
  {
    if rows != [] {
      AttemptsInRowOrder(rows[..|rows| - 1]);
    }
  }

  /** One more row of the pass is one more attempt. */
  lemma AttemptsStep(rows: seq<Reminder>, i: nat)
    requires i < |rows|
    ensures Attempts(rows[..i + 1]) == Attempts(rows[..i]) + [AttemptFor(rows[i])]
  {
    assert rows[..i + 1][..i] == rows[..i];
  }
}
