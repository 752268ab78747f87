/**
  The task checklist: an ordered list of task records and the edits the task buttons
  make to it, as functions from the old list to the new one.
 */
module Checklist {
  import opened Wrappers
  import opened PyText

  /** One task record: `{'text': …, 'created': …, 'completed': …}`. */
  datatype Task = Task(text: string, created: string, completed: bool)

  /** A task as `add_task` creates it: non-empty text with no whitespace at its ends. */
  predicate Entered(t: Task) {
    t.text != [] && Unpadded(StrBlanks, t.text)
  }

  predicate AllEntered(tasks: seq<Task>) {
    forall i :: 0 <= i < |tasks| ==> Entered(tasks[i])
  }

  /** The listbox selection points at an existing task. */
  predicate InRange(tasks: seq<Task>, selection: Option<nat>) {
    selection.Some? && selection.value < |tasks|
  }

  /**
    `add_task`: the entry is stripped; an empty result leaves the list alone, otherwise
    one incomplete task with the stripped text and the given creation time is appended.
   */
  function Added(tasks: seq<Task>, entry: string, created: string): (r: seq<Task>)
    ensures Strip(entry) == [] ==> r == tasks
    ensures Strip(entry) != [] ==> |r| == |tasks| + 1 && forall j :: 0 <= j < |tasks| ==> r[j] == tasks[j]
    ensures Strip(entry) != [] ==> r[|tasks|].text == Strip(entry) && !r[|tasks|].completed
                                   && r[|tasks|].created == created
  {
    var text := Strip(entry);
    if text != [] then tasks + [Task(text, created, false)] else tasks
  }

  /**
    `complete_task`: with a selection in range, flips `completed` of that task and of no
    other; with no selection or one out of range, the list is unchanged.
   */
  function Toggled(tasks: seq<Task>, selection: Option<nat>): (r: seq<Task>)
    ensures |r| == |tasks|
    ensures forall j :: 0 <= j < |tasks| && !(InRange(tasks, selection) && j == selection.value) ==> r[j] == tasks[j]
    ensures InRange(tasks, selection) ==>
              var i := selection.value;
              r[i].completed == !tasks[i].completed && r[i].text == tasks[i].text && r[i].created == tasks[i].created
  {
    if InRange(tasks, selection) then
      var i := selection.value;
      tasks[i := tasks[i].(completed := !tasks[i].completed)]
    else tasks
  }

  /** Completing the same selection twice restores the list. */
  lemma ToggleTwice(tasks: seq<Task>, selection: Option<nat>)
    ensures Toggled(Toggled(tasks, selection), selection) == tasks
  {
    var once := Toggled(tasks, selection);
    var twice := Toggled(once, selection);
    assert forall j :: 0 <= j < |tasks| ==> twice[j] == tasks[j];
  }

  /**
    `delete_task`: with a selection `i` in range, the task at `i` is removed and the others
    keep their order; with no selection or one out of range, the list is unchanged.
   */
  function Deleted(tasks: seq<Task>, selection: Option<nat>): (r: seq<Task>)
    ensures !InRange(tasks, selection) ==> r == tasks
    ensures InRange(tasks, selection) ==>
              var i := selection.value;
              && |r| == |tasks| - 1
              && (forall j :: 0 <= j < i ==> r[j] == tasks[j])
              && (forall j :: i <= j < |r| ==> r[j] == tasks[j + 1])
  {
    if InRange(tasks, selection) then
      var i := selection.value;
      tasks[..i] + tasks[i + 1..]
    else tasks
  }

  /** Deleting removes exactly the selected task: nothing is lost or duplicated. */
  lemma DeleteRemovesOne(tasks: seq<Task>, i: nat)
    requires i < |tasks|
    ensures multiset(Deleted(tasks, Some(i))) + multiset{tasks[i]} == multiset(tasks)
  {
    assert tasks == tasks[..i] + [tasks[i]] + tasks[i + 1..];
  }

  /** Deleting the task just added gives back the list as it was before the add. */
  lemma DeleteUndoesAdd(tasks: seq<Task>, entry: string, created: string)
    requires Strip(entry) != []
    ensures Deleted(Added(tasks, entry, created), Some(|tasks|)) == tasks
  {
    var added := Added(tasks, entry, created);
    assert added[..|tasks|] == tasks;
    assert added[..|tasks|] + added[|tasks| + 1..] == tasks;
  }

  /** Every edit keeps a list of entered tasks a list of entered tasks. */
  lemma EditsKeepEntered(tasks: seq<Task>, entry: string, created: string, selection: Option<nat>)
    requires AllEntered(tasks)
    ensures AllEntered(Added(tasks, entry, created))
    ensures AllEntered(Toggled(tasks, selection))
    ensures AllEntered(Deleted(tasks, selection))
  {
  }

  /** The listbox row for a task: a check mark or an empty box, a space, then the text. */
  function DisplayLine(t: Task): (line: string)
    ensures |line| == |t.text| + 2 && line[1] == ' '
    ensures forall k :: 0 <= k < |t.text| ==> line[k + 2] == t.text[k]
    ensures line[0] == '✓' <==> t.completed
    ensures line[0] == '□' <==> !t.completed
  {
    (if t.completed then "✓ " else "□ ") + t.text
  }

  /** Two tasks show the same row exactly when they agree on text and completion. */
  lemma DisplayLineInjective(t1: Task, t2: Task)
    ensures DisplayLine(t1) == DisplayLine(t2) <==> t1.text == t2.text && t1.completed == t2.completed
  {
    if DisplayLine(t1) == DisplayLine(t2) {
      assert DisplayLine(t1)[2..] == t1.text;
      assert DisplayLine(t2)[2..] == t2.text;
    }
  }
}
