/** The activity tracker page: a log of activities and a list of
    reminders, with the handlers that add, toggle and delete entries. */
module ActivityTracker {
  import opened Text
  import opened Seqs

  datatype Activity = Activity(id: int, kind: string, title: string, notes: string,
                               outcome: string, timestamp: string)

  datatype Reminder = Reminder(id: int, task: string, due: string, done: bool)

  /** The "new activity" form. */
  datatype ActivityForm = ActivityForm(kind: string, title: string, notes: string, outcome: string)

  /** The "new reminder" form. */
  datatype ReminderForm = ReminderForm(task: string, due: string)

  function EmptyActivityForm(): ActivityForm {
    ActivityForm("Meeting", "", "", "")
  }

  /** `s.replace(a, b)` with one-character strings: only the first `a`
      changes. */
  function ReplaceFirstChar(s: string, a: char, b: char): (r: string)
    ensures |r| == |s|
    ensures forall k :: 0 <= k < |s| && k != FindChar(s, a) ==> r[k] == s[k]
    ensures FindChar(s, a) < |s| ==> r[FindChar(s, a)] == b
  {
    var i := FindChar(s, a);
    if i == |s| then s else s[..i] + [b] + s[i + 1..]
  }

  /** The log time of an entry made at the ISO instant `iso`
      (`YYYY-MM-DDTHH:MM:SS.sssZ`): its first 16 characters with the `T`
      turned into a space. */
  function LogStamp(iso: string): (r: string)
    ensures |r| == if |iso| < 16 then |iso| else 16
    ensures forall k :: 0 <= k < |r| ==> r[k] == iso[k] || (iso[k] == 'T' && r[k] == ' ')
  {
    ReplaceFirstChar(Take(iso, 16), 'T', ' ')
  }

  /** An ISO instant `YYYY-MM-DDTHH:MM...` becomes date, a space, hours
      and minutes. */
  lemma LogStampOfIso(iso: string)
    requires |iso| >= 16 && iso[10] == 'T' && 'T' !in iso[..10]
    ensures LogStamp(iso) == iso[..10] + " " + iso[11..16]
  {
    var t := Take(iso, 16);
    var i := FindChar(t, 'T');
    assert t[..10] == iso[..10];
    assert i == 10;
  }

  /** `toggleReminder`: flips `done` of the entries with the id. */
  function Toggled(rs: seq<Reminder>, id: int): (r: seq<Reminder>)
    ensures |r| == |rs|
    ensures forall k :: 0 <= k < |rs| ==>
              r[k].(done := rs[k].done) == rs[k] &&
              r[k].done == (if rs[k].id == id then !rs[k].done else rs[k].done)
  {
    seq(|rs|, k requires 0 <= k < |rs| => if rs[k].id == id then rs[k].(done := !rs[k].done) else rs[k])
  }

  /** Toggling twice restores the list. */
  lemma ToggleInvolution(rs: seq<Reminder>, id: int)
    ensures Toggled(Toggled(rs, id), id) == rs
  {
    var t := Toggled(Toggled(rs, id), id);
    assert forall k :: 0 <= k < |rs| ==> t[k] == rs[k];
  }

  /** Toggles of different ids commute. */
  lemma ToggleCommutes(rs: seq<Reminder>, a: int, b: int)
    ensures Toggled(Toggled(rs, a), b) == Toggled(Toggled(rs, b), a)
  {
    var x := Toggled(Toggled(rs, a), b);
    var y := Toggled(Toggled(rs, b), a);
    assert forall k :: 0 <= k < |rs| ==> x[k] == y[k];
  }

  function NotId(id: int): Reminder -> bool {
    (r: Reminder) => r.id != id
  }

  /** `deleteReminder`: every entry with the id goes; the rest keep their
      order. */
  function Deleted(rs: seq<Reminder>, id: int): (r: seq<Reminder>)
    ensures IsSubsequence(r, rs)
    ensures forall k :: 0 <= k < |r| ==> r[k].id != id
    ensures forall k :: 0 <= k < |rs| && rs[k].id != id ==> rs[k] in r
    ensures (forall k :: 0 <= k < |rs| ==> rs[k].id != id) ==> r == rs
  {
    Filter(rs, NotId(id))
  }

  /** Deleting twice is deleting once. */
  lemma DeleteIdempotent(rs: seq<Reminder>, id: int)
    ensures Deleted(Deleted(rs, id), id) == Deleted(rs, id)
  {
    FilterIdempotent(rs, NotId(id));
  }

  /** Deleting removes as many entries as carried the id. */
  lemma {:induction false} DeleteCount(rs: seq<Reminder>, id: int)
    ensures |Deleted(rs, id)| + Count(rs, (r: Reminder) => r.id == id) == |rs|
  {
    if rs != [] {
      DeleteCount(rs[1..], id);
    }
  }

  /** The page's state: the two lists and the two forms. */
  class Tracker {
    var activities: seq<Activity>
    var reminders: seq<Reminder>
    var newActivity: ActivityForm
    var newReminder: ReminderForm

    constructor()
      ensures |activities| == 2 && |reminders| == 2
      ensures forall k :: 0 <= k < |reminders| ==> !reminders[k].done
      ensures newActivity == EmptyActivityForm() && newReminder == ReminderForm("", "")
    {
      activities := [
        Activity(1, "Meeting", "Kickoff with ABC Corp", "Discussed ESG goals, next steps: send ESG Update.",
                 "Follow-up scheduled", "2025-07-24 10:00"),
        Activity(2, "Call", "Call with XYZ Pvt Ltd", "Clarified compliance requirements.",
                 "Send compliance checklist", "2025-07-25 14:30")];
      reminders := [Reminder(1, "Call Client", "2025-07-26", false),
                    Reminder(2, "Send ESG Update", "2025-07-27", false)];
      newActivity := EmptyActivityForm();
      newReminder := ReminderForm("", "");
    }

    /** `handleAddActivity` at clock reading `now` (milliseconds, used as
        the id) and ISO instant `iso`: without a title or notes nothing
        happens; otherwise the form becomes the first activity and the form
        resets. */
    method HandleAddActivity(now: int, iso: string)
      modifies this
      ensures old(newActivity.title) == "" || old(newActivity.notes) == "" ==>
                activities == old(activities) && newActivity == old(newActivity)
      ensures old(newActivity.title) != "" && old(newActivity.notes) != "" ==>
                activities == [Activity(now, old(newActivity.kind), old(newActivity.title), old(newActivity.notes),
                                        old(newActivity.outcome), LogStamp(iso))] + old(activities) &&
                newActivity == EmptyActivityForm()
      ensures reminders == old(reminders) && newReminder == old(newReminder)
    {
      if newActivity.title == "" || newActivity.notes == "" {
        return;
      }
      var entry := Activity(now, newActivity.kind, newActivity.title, newActivity.notes,
                            newActivity.outcome, LogStamp(iso));
      activities := [entry] + activities;
      newActivity := EmptyActivityForm();
    }

    /** `handleAddReminder`: needs both a task and a due date; the new
        reminder goes first, not done, and the form resets. */
    method HandleAddReminder(now: int)
      modifies this
      ensures old(newReminder.task) == "" || old(newReminder.due) == "" ==>
                reminders == old(reminders) && newReminder == old(newReminder)
      ensures old(newReminder.task) != "" && old(newReminder.due) != "" ==>
                reminders == [Reminder(now, old(newReminder.task), old(newReminder.due), false)] + old(reminders) &&
                newReminder == ReminderForm("", "")
      ensures activities == old(activities) && newActivity == old(newActivity)
    {
      if newReminder.task == "" || newReminder.due == "" {
        return;
      }
      reminders := [Reminder(now, newReminder.task, newReminder.due, false)] + reminders;
      newReminder := ReminderForm("", "");
    }

    /** `toggleReminder`. */
    method ToggleReminder(id: int)
      modifies this
      ensures reminders == Toggled(old(reminders), id)
      ensures activities == old(activities) && newActivity == old(newActivity) && newReminder == old(newReminder)
    {
      reminders := Toggled(reminders, id);
    }

    /** `deleteReminder`. */
    method DeleteReminder(id: int)
      modifies this
      ensures reminders == Deleted(old(reminders), id)
      ensures activities == old(activities) && newActivity == old(newActivity) && newReminder == old(newReminder)
    {
      reminders := Deleted(reminders, id);
    }
  }
}
