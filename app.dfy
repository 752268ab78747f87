/**
  The `FocusTool` object: the countdown's three fields, the task list and the resize
  drag in progress, with the button handlers that change them in place. The widgets,
  the timer thread and the files are left out: what the user typed, selected or
  confirmed arrives as a parameter, and what would be shown comes back as a result.
 */
module App {
  import opened Wrappers
  import opened PyText
  import Clock
  import opened Checklist
  import WindowGeometry

  class FocusTool {
    var tasks: seq<Task>
    var timerRunning: bool
    /** Seconds left in the current session. */
    var timeRemaining: nat
    /** The length of the current session, for the completion message. */
    var originalTimeMinutes: nat
    /** What the last successful `start_resize` recorded; `None` before the first. */
    var resizeAnchor: Option<WindowGeometry.ResizeAnchor>

    /** The countdown never holds more than the session it belongs to. */
    ghost predicate Valid()
      reads this
    {
      timeRemaining <= originalTimeMinutes * 60
    }

    /** `__init__`: a stopped 50-minute timer and the tasks `load_tasks` read (empty if none). */
    constructor (savedTasks: seq<Task>)
      ensures Valid()
      ensures tasks == savedTasks && resizeAnchor == None
      ensures !timerRunning && timeRemaining == Clock.DefaultMinutes * 60
      ensures originalTimeMinutes == Clock.DefaultMinutes
    {
      tasks := savedTasks;
      timerRunning := false;
      timeRemaining := Clock.DefaultMinutes * 60;
      originalTimeMinutes := Clock.DefaultMinutes;
      resizeAnchor := None;
    }

    /** `start_timer`: starts a stopped timer (and its loop); a running one is left alone. */
    method StartTimer() returns (launched: bool)
      modifies this
      ensures launched == !old(timerRunning)
      ensures timerRunning
      ensures timeRemaining == old(timeRemaining) && originalTimeMinutes == old(originalTimeMinutes)
      ensures tasks == old(tasks) && resizeAnchor == old(resizeAnchor)
    {
      launched := !timerRunning;
      if launched {
        timerRunning := true;
      }
    }

    /** `stop_timer`: the timer stops; the seconds left are kept. */
    method StopTimer()
      modifies this
      ensures !timerRunning
      ensures timeRemaining == old(timeRemaining) && originalTimeMinutes == old(originalTimeMinutes)
      ensures tasks == old(tasks) && resizeAnchor == old(resizeAnchor)
    {
      timerRunning := false;
    }

    /** `set_timer`: stops the timer and loads a session of `minutes` minutes. */
    method SetTimer(minutes: nat)
      modifies this
      ensures Valid()
      ensures !timerRunning && timeRemaining == minutes * 60 && originalTimeMinutes == minutes
      ensures tasks == old(tasks) && resizeAnchor == old(resizeAnchor)
    {
      StopTimer();
      timeRemaining := minutes * 60;
      originalTimeMinutes := minutes;
    }

    /**
      `apply_custom_timer`: an entry that reads as a whole number of minutes in 1..1440
      sets the timer as `set_timer` does; any other entry changes nothing and is reported.
     */
    method ApplyCustomTimer(entry: string) returns (outcome: Clock.CustomEntry)
      requires Valid()
      modifies this
      ensures Valid()
      ensures outcome == Clock.ReadCustomMinutes(entry)
      ensures outcome.Accepted? ==>
                !timerRunning && timeRemaining == outcome.minutes * 60 && originalTimeMinutes == outcome.minutes
      ensures !outcome.Accepted? ==>
                timerRunning == old(timerRunning) && timeRemaining == old(timeRemaining)
                && originalTimeMinutes == old(originalTimeMinutes)
      ensures tasks == old(tasks) && resizeAnchor == old(resizeAnchor)
    {
      outcome := Clock.ReadCustomMinutes(entry);
      if outcome.Accepted? {
        StopTimer();
        timeRemaining := outcome.minutes * 60;
        originalTimeMinutes := outcome.minutes;
      }
    }

    /** `reset_timer`: stops the timer and loads the default 50-minute session. */
    method ResetTimer()
      modifies this
      ensures Valid()
      ensures !timerRunning && timeRemaining == Clock.DefaultMinutes * 60
      ensures originalTimeMinutes == Clock.DefaultMinutes
      ensures tasks == old(tasks) && resizeAnchor == old(resizeAnchor)
    {
      SetTimer(Clock.DefaultMinutes);
    }

    /**
      One pass of `timer_loop`'s body (after its one-second sleep): one second less,
      and the session is over when none is left.
     */
    method Tick() returns (finished: bool)
      requires Valid() && timerRunning && timeRemaining > 0
      modifies this
      ensures Valid()
      ensures timeRemaining == old(timeRemaining) - 1
      ensures finished <==> timeRemaining == 0
      ensures timerRunning && originalTimeMinutes == old(originalTimeMinutes)
      ensures tasks == old(tasks) && resizeAnchor == old(resizeAnchor)
    {
      timeRemaining := timeRemaining - 1;
      finished := timeRemaining <= 0;
    }

    /**
      `timer_loop` run to its end with nobody pressing a button meanwhile: a running
      timer counts down one second per pass, exactly as many passes as it had seconds,
      and posts the completion once it reaches zero; a stopped one does nothing.
     */
    method TimerLoop() returns (ticks: nat, completionPosted: bool)
      requires Valid()
      modifies this
      ensures Valid()
      ensures old(timerRunning) ==> ticks == old(timeRemaining) && timeRemaining == 0
      ensures completionPosted <==> old(timerRunning) && old(timeRemaining) > 0
      ensures !old(timerRunning) ==> ticks == 0 && timeRemaining == old(timeRemaining)
      ensures timerRunning == old(timerRunning) && originalTimeMinutes == old(originalTimeMinutes)
      ensures tasks == old(tasks) && resizeAnchor == old(resizeAnchor)
    {
      ticks, completionPosted := 0, false;
      while timerRunning && timeRemaining > 0
        invariant Valid()
        invariant timerRunning == old(timerRunning) && originalTimeMinutes == old(originalTimeMinutes)
        invariant tasks == old(tasks) && resizeAnchor == old(resizeAnchor)
        invariant ticks + timeRemaining == old(timeRemaining)
        invariant !old(timerRunning) ==> ticks == 0
        invariant !completionPosted && (ticks > 0 ==> timeRemaining > 0)
        decreases timeRemaining
      {
        completionPosted := Tick();
        ticks := ticks + 1;
        if completionPosted {
          break;
        }
      }
    }

    /**
      `timer_complete`: the timer stops, the message names the session's length, and a
      default 50-minute session is loaded.
     */
    method TimerComplete() returns (message: string)
      modifies this
      ensures Valid()
      ensures message == Clock.CompletionMessage(old(originalTimeMinutes))
      ensures !timerRunning && timeRemaining == Clock.DefaultMinutes * 60
      ensures originalTimeMinutes == Clock.DefaultMinutes
      ensures tasks == old(tasks) && resizeAnchor == old(resizeAnchor)
    {
      timerRunning := false;
      message := Clock.CompletionMessage(originalTimeMinutes);
      timeRemaining := Clock.DefaultMinutes * 60;
      originalTimeMinutes := Clock.DefaultMinutes;
    }

    /** `add_task` with the entry's text and the creation time `datetime.now()` gave. */
    method AddTask(entry: string, created: string) returns (added: bool)
      modifies this
      ensures added <==> Strip(entry) != []
      ensures tasks == Added(old(tasks), entry, created)
      ensures timerRunning == old(timerRunning) && timeRemaining == old(timeRemaining)
      ensures originalTimeMinutes == old(originalTimeMinutes) && resizeAnchor == old(resizeAnchor)
    {
      var text := Strip(entry);
      added := text != [];
      if added {
        tasks := tasks + [Task(text, created, false)];
      }
    }

    /** `complete_task` on the listbox's selection (`None` when nothing is selected). */
    method CompleteTask(selection: Option<nat>) returns (toggled: bool)
      modifies this
      ensures toggled <==> InRange(old(tasks), selection)
      ensures tasks == Toggled(old(tasks), selection)
      ensures timerRunning == old(timerRunning) && timeRemaining == old(timeRemaining)
      ensures originalTimeMinutes == old(originalTimeMinutes) && resizeAnchor == old(resizeAnchor)
    {
      toggled := false;
      if selection.Some? {
        var index := selection.value;
        if index < |tasks| {
          tasks := tasks[index := tasks[index].(completed := !tasks[index].completed)];
          toggled := true;
        }
      }
    }

    /** `delete_task` on the listbox's selection (`None` when nothing is selected). */
    method DeleteTask(selection: Option<nat>) returns (deleted: bool)
      modifies this
      ensures deleted <==> InRange(old(tasks), selection)
      ensures tasks == Deleted(old(tasks), selection)
      ensures timerRunning == old(timerRunning) && timeRemaining == old(timeRemaining)
      ensures originalTimeMinutes == old(originalTimeMinutes) && resizeAnchor == old(resizeAnchor)
    {
      deleted := false;
      if selection.Some? {
        var index := selection.value;
        if index < |tasks| {
          tasks := tasks[..index] + tasks[index + 1..];
          deleted := true;
        }
      }
    }

    /** `clear_tasks`: empties the list when the user answers yes, and only then. */
    method ClearTasks(confirmed: bool)
      modifies this
      ensures confirmed ==> tasks == []
      ensures !confirmed ==> tasks == old(tasks)
      ensures timerRunning == old(timerRunning) && timeRemaining == old(timeRemaining)
      ensures originalTimeMinutes == old(originalTimeMinutes) && resizeAnchor == old(resizeAnchor)
    {
      if confirmed {
        tasks := [];
      }
    }

    /**
      `refresh_task_list`: one listbox row per task, in order, and the rows shown in
      green: those of the completed tasks.
     */
    method RefreshTaskList() returns (rows: seq<string>, green: set<nat>)
      ensures |rows| == |tasks|
      ensures forall i :: 0 <= i < |tasks| ==> rows[i] == DisplayLine(tasks[i])
      ensures forall i: nat :: i in green <==> i < |tasks| && tasks[i].completed
    {
      rows, green := [], {};
      for i := 0 to |tasks|
        invariant |rows| == i
        invariant forall k :: 0 <= k < i ==> rows[k] == DisplayLine(tasks[k])
        invariant forall k: nat :: k in green <==> k < i && tasks[k].completed
      {
        var status := if tasks[i].completed then "✓ " else "□ ";
        rows := rows + [status + tasks[i].text];
        if tasks[i].completed {
          green := green + {i};
        }
      }
    }

    /**
      `start_resize` with the pointer at `(x, y)` in the window and `(xRoot, yRoot)` on
      the screen: records the drag's start, unless no handle was passed and the pointer
      is on no border, in which case the previous record stays.
     */
    method StartResize(handle: Option<WindowGeometry.Edge>, x: int, y: int, xRoot: int, yRoot: int,
                       width: int, height: int)
      modifies this
      ensures var started := WindowGeometry.StartResize(handle, x, y, xRoot, yRoot, width, height);
              resizeAnchor == if started.Some? then started else old(resizeAnchor)
      ensures tasks == old(tasks) && timerRunning == old(timerRunning)
      ensures timeRemaining == old(timeRemaining) && originalTimeMinutes == old(originalTimeMinutes)
    {
      var started := WindowGeometry.StartResize(handle, x, y, xRoot, yRoot, width, height);
      if started.Some? {
        resizeAnchor := started;
      }
    }

    /** `on_resize` with the pointer at `(xRoot, yRoot)`: the geometry request it issues, if any. */
    method OnResize(handle: Option<WindowGeometry.Edge>, xRoot: int, yRoot: int) returns (request: Option<WindowGeometry.Size>)
      ensures request == WindowGeometry.OnResize(resizeAnchor, handle, xRoot, yRoot)
      ensures resizeAnchor.None? ==> request.None?
    {
      request := WindowGeometry.OnResize(resizeAnchor, handle, xRoot, yRoot);
    }
  }
}
