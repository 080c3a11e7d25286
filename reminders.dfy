/** The reminders page: adding a reminder through the server, the search
    filter over the rows the server returned, and the status and type
    labels of a row. */
module Reminders {
  import opened Text
  import opened Seqs

  /** A JSON value in a row field, as far as the page looks at it; a missing
      field and `null` are both `None` in an `Option<Value>`. */
  datatype Value = Str(s: string) | Bool(b: bool) | Num(n: int) | Object

  /** JavaScript truthiness of a field (NaN is not modelled). */
  predicate TruthyValue(v: Option<Value>) {
    match v
    case None => false
    case Some(Str(s)) => s != ""
    case Some(Bool(b)) => b
    case Some(Num(n)) => n != 0
    case Some(Object) => true
  }

  /** A reminder row as the server returns it. */
  datatype Row = Row(id: int, task: Option<Value>, due: Option<Value>, kind: Option<Value>, done: Option<Value>)

  /** The "new reminder" form; `kind` is the selected reminder type. */
  datatype ReminderForm = ReminderForm(task: string, due: string, kind: string, done: bool)

  function EmptyReminderForm(): ReminderForm {
    ReminderForm("", "", "Report Submission", false)
  }

  // ---------------------------------------------------------------------
  // Search

  /** A field that is a non-empty string containing the search text,
      ignoring case. */
  predicate StringHit(v: Option<Value>, search: string) {
    v.Some? && v.value.Str? && v.value.s != "" && ContainsCI(v.value.s, search)
  }

  predicate RowHit(search: string, r: Option<Row>) {
    r.Some? &&
    (StringHit(r.value.task, search) || StringHit(r.value.due, search) || StringHit(r.value.kind, search))
  }

  /** The rows listed for the search text; a row may be `null`. */
  function FilteredReminders(rows: seq<Option<Row>>, search: string): (r: seq<Option<Row>>)
    ensures IsSubsequence(r, rows)
    ensures forall k :: 0 <= k < |r| ==> r[k].Some? && RowHit(search, r[k])
    ensures forall k :: 0 <= k < |rows| && RowHit(search, rows[k]) ==> rows[k] in r
  {
    Filter(rows, (x: Option<Row>) => RowHit(search, x))
  }

  /** With an empty search a row is listed exactly when it is not `null` and
      one of its task, due date and type is a non-empty string; numbers,
      booleans and objects in those fields never match. */
  lemma EmptySearchKeepsStrings(r: Option<Row>)
    ensures RowHit("", r) <==>
              r.Some? && ((r.value.task.Some? && r.value.task.value.Str? && r.value.task.value.s != "") ||
                          (r.value.due.Some? && r.value.due.value.Str? && r.value.due.value.s != "") ||
                          (r.value.kind.Some? && r.value.kind.value.Str? && r.value.kind.value.s != ""))
  {
    if r.Some? {
      if r.value.task.Some? && r.value.task.value.Str? { EmptyIsContained(r.value.task.value.s); }
      if r.value.due.Some? && r.value.due.value.Str? { EmptyIsContained(r.value.due.value.s); }
      if r.value.kind.Some? && r.value.kind.value.Str? { EmptyIsContained(r.value.kind.value.s); }
    }
  }

  /** The filter of a list with one more row at the end is the old filter,
      followed by the new row when it matches. */
  lemma FilterAfterAppend(rows: seq<Option<Row>>, x: Option<Row>, search: string)
    ensures FilteredReminders(rows + [x], search) ==
              FilteredReminders(rows, search) + (if RowHit(search, x) then [x] else [])
  {
    FilterAppend(rows, [x], (y: Option<Row>) => RowHit(search, y));
    assert [x][1..] == [];
  }

  // ---------------------------------------------------------------------
  // Labels

  /** The status badge: "Completed" only for a strict boolean `true`. */
  function StatusLabel(done: Option<Value>): (r: string)
    ensures r == "Completed" <==> done == Some(Bool(true))
    ensures r != "Completed" ==> r == "Pending"
  {
    if done == Some(Bool(true)) then "Completed" else "Pending"
  }

  /** A string "true" or a number 1 in `done` still shows "Pending". */
  lemma LooseTrueIsPending()
    ensures StatusLabel(Some(Str("true"))) == "Pending"
    ensures StatusLabel(Some(Num(1))) == "Pending"
  {
  }

  /** The type cell: "N/A" for a falsy type or one that is white space
      only, otherwise the type itself. A truthy non-string type has no
      `trim` and the row cannot be drawn; that outcome is `None`. */
  function TypeLabel(kind: Option<Value>): (r: Option<string>)
    ensures !TruthyValue(kind) ==> r == Some("N/A")
    ensures kind.Some? && kind.value.Str? && AllSpace(kind.value.s) ==> r == Some("N/A")
    ensures kind.Some? && kind.value.Str? && !AllSpace(kind.value.s) ==> r == Some(kind.value.s)
    ensures r.None? <==> TruthyValue(kind) && !kind.value.Str?
  {
    if !TruthyValue(kind) then Some("N/A")
    else if !kind.value.Str? then None
    else
      TrimEmpty(kind.value.s);
      if Trim(kind.value.s) != "" then Some(kind.value.s) else Some("N/A")
  }

  // ---------------------------------------------------------------------
  // Page state

  class RemindersPage {
    var reminders: seq<Option<Row>>
    var newReminder: ReminderForm

    constructor()
      ensures reminders == [] && newReminder == EmptyReminderForm()
    {
      reminders := [];
      newReminder := EmptyReminderForm();
    }

    /** `handleAddReminder`; `reply` is the row the server answers with, or
        `None` when the request fails. Without a task or a due date nothing
        is sent. Otherwise the form is sent with `done` false, and on a
        reply the row goes at the end of the list and the form resets. */
    method HandleAddReminder(reply: Option<Option<Row>>) returns (sent: Option<ReminderForm>)
      modifies this
      ensures old(newReminder.task) == "" || old(newReminder.due) == "" ==>
                sent.None? && reminders == old(reminders) && newReminder == old(newReminder)
      ensures old(newReminder.task) != "" && old(newReminder.due) != "" ==>
                sent == Some(old(newReminder).(done := false))
      ensures sent.Some? && reply.Some? ==>
                reminders == old(reminders) + [reply.value] && newReminder == EmptyReminderForm()
      ensures reply.None? ==> reminders == old(reminders) && newReminder == old(newReminder)
    {
      if newReminder.task == "" || newReminder.due == "" {
        return None;
      }
      sent := Some(newReminder.(done := false));
      if reply.Some? {
        reminders := reminders + [reply.value];
        newReminder := EmptyReminderForm();
      }
    }
  }
}
