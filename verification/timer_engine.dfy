/**
 * The Pomodoro timer of the page: the variables `pomState`, `onBreak`,
 * `pomRemaining` and `pomInterval` as fields, updated step by step by the
 * button handlers, the interval callback and `pomodoroCycle`. The minute
 * fields are read as parameters at each step, as the page reads them;
 * the interval itself is the flag `intervalActive`, and the one-second
 * callback is `Tick`, which only a scheduled interval can invoke.
 */
module Engine {
  import opened Wrappers
  import opened Tasks
  import opened Pomodoro
  import Store

  class PomodoroTimer {
    /** The task store whose selected task a finished work phase completes. */
    const store: Store.TaskStore
    var pomState: RunState
    var onBreak: bool
    var pomRemaining: int
    var intervalActive: bool

    function View(): Timer
      reads this
    {
      Timer(pomState, onBreak, pomRemaining, intervalActive)
    }

    ghost predicate Valid()
      reads this
    {
      Pomodoro.Valid(View())
    }

    constructor (store: Store.TaskStore)
      ensures this.store == store
      ensures Valid() && View() == Initial()
    {
      this.store := store;
      pomState := Stopped;
      onBreak := false;
      pomRemaining := 60 * DefaultWorkMinutes;
      intervalActive := false;
    }

    /**
     * The start button; `proceed` is the answer to the confirmation asked
     * when stopped with no task selected.
     */
    method Start(workMin: Option<int>, proceed: bool)
      requires Valid()
      modifies this
      ensures Valid()
      ensures View() == AfterStart(old(View()), workMin, IsLinked(store.selectedTaskId), proceed)
    {
      if pomState == Running {
        return;
      }
      if pomState == Stopped {
        if !IsLinked(store.selectedTaskId) && !proceed {
          return;
        }
        pomRemaining := Seconds(workMin, DefaultWorkMinutes);
        onBreak := false;
      }
      pomState := Running;
      intervalActive := true;
    }

    /** The pause button. */
    method Pause()
      requires Valid()
      modifies this
      ensures Valid()
      ensures View() == AfterPause(old(View()))
    {
      if pomState != Running {
        return;
      }
      intervalActive := false;
      pomState := Paused;
    }

    /** `resetPom`. */
    method Reset(workMin: Option<int>)
      modifies this
      ensures Valid()
      ensures View() == AfterReset(workMin)
    {
      intervalActive := false;
      pomState := Stopped;
      onBreak := false;
      pomRemaining := Seconds(workMin, DefaultWorkMinutes);
    }

    /**
     * `pomodoroCycle`: the end of a work phase completes the selected task
     * (through the store) and starts the break; the end of a break resets.
     */
    method Cycle(workMin: Option<int>, breakMin: Option<int>)
      requires Valid() && pomState == Running
      modifies this, store
      ensures Valid()
      ensures View() == AfterCycle(old(View()), workMin, breakMin)
      ensures store.tasks ==
        if !old(onBreak) && IsLinked(store.selectedTaskId) then MarkedDone(old(store.tasks), store.selectedTaskId.value)
        else old(store.tasks)
      ensures store.stored == if store.tasks != old(store.tasks) then Some(store.tasks) else old(store.stored)
      ensures store.selectedTaskId == old(store.selectedTaskId)
    {
      intervalActive := false;
      if !onBreak {
        store.CompleteSelected();
        onBreak := true;
        pomRemaining := Seconds(breakMin, DefaultBreakMinutes);
      } else {
        onBreak := false;
        pomState := Stopped;
        Reset(workMin);
        return;
      }
      intervalActive := true;
    }

    /** The interval callback, once per second while an interval is scheduled. */
    method Tick(workMin: Option<int>, breakMin: Option<int>)
      requires Valid() && intervalActive
      modifies this, store
      ensures Valid()
      ensures View() == AfterTick(old(View()), workMin, breakMin)
      ensures store.tasks == TasksAfterTick(old(View()), old(store.tasks), store.selectedTaskId)
      ensures store.stored == if store.tasks != old(store.tasks) then Some(store.tasks) else old(store.stored)
      ensures store.selectedTaskId == old(store.selectedTaskId)
    {
      pomRemaining := pomRemaining - 1;
      if pomRemaining <= 0 {
        Cycle(workMin, breakMin);
      }
    }
  }
}
