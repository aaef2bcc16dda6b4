/**
 * The task store: the module-level `tasks` list and `selectedTaskId` of the
 * planner, with the operations the page's buttons and dialogs invoke. The
 * answers of `confirm` and `prompt` dialogs are parameters; the id `uid()`
 * would generate is a parameter that must not already be in use.
 */
module Store {
  import opened Wrappers
  import opened Tasks
  import Text

  /** An import file after parsing: its `tasks` member is an array, or the file did not parse or has no such array. */
  datatype ImportFile = TaskArray(tasks: seq<Task>) | Malformed

  /** The exported document `{exportedAt, tasks}`. */
  datatype Snapshot = Snapshot(exportedAt: int, tasks: seq<Task>)

  /** The export button's result: nothing when there are no tasks, otherwise a snapshot of all tasks. */
  function ExportOf(ts: seq<Task>, exportedAt: int): (r: Option<Snapshot>)
    ensures r.None? <==> ts == []
    ensures r.Some? ==> r.value.tasks == ts && r.value.exportedAt == exportedAt
  {
    if |ts| == 0 then None else Some(Snapshot(exportedAt, ts))
  }

  class TaskStore {
    var tasks: seq<Task>
    var selectedTaskId: Option<string>
    /** What local storage holds under the tasks key: written exactly where the page calls `saveTasks`. */
    ghost var stored: Option<seq<Task>>

    /** `loadTasks`: the saved list, or an empty list when nothing is saved. */
    constructor (saved: Option<seq<Task>>)
      ensures tasks == saved.GetOr([]) && selectedTaskId == None && stored == saved
    {
      tasks := saved.GetOr([]);
      selectedTaskId := None;
      stored := saved;
    }

    /** `addTask`: a blank title changes nothing; otherwise the new task is appended and saved. */
    method AddTask(d: Draft, id: string, created: int) returns (added: bool)
      requires IdUnused(tasks, id)
      modifies this
      ensures added <==> !Text.AllSpace(d.title)
      ensures tasks == Added(old(tasks), d, id, created)
      ensures selectedTaskId == old(selectedTaskId)
      ensures stored == if added then Some(tasks) else old(stored)
    {
      var title := Text.Trim(d.title);
      if title == [] {
        return false;
      }
      tasks := tasks + [NewTask(d, id, created)];
      stored := Some(tasks);
      added := true;
    }

    /** `toggleDone`: flips the first task with `id`; an unknown id changes nothing and saves nothing. */
    method ToggleDone(id: string)
      modifies this
      ensures tasks == Toggled(old(tasks), id)
      ensures selectedTaskId == old(selectedTaskId)
      ensures stored == if FindIndex(old(tasks), id).Some? then Some(tasks) else old(stored)
    {
      var found := FindIndex(tasks, id);
      if found.None? {
        return;
      }
      var i := found.value;
      tasks := tasks[i := tasks[i].(done := !tasks[i].done)];
      stored := Some(tasks);
    }

    /**
     * `editTask`: `titleAnswer` and `descAnswer` are what the two prompts
     * return (`None` for Cancel). Cancelling the first prompt changes
     * nothing; cancelling the second leaves the new title in memory but
     * unsaved.
     */
    method EditTask(id: string, titleAnswer: Option<string>, descAnswer: Option<string>)
      modifies this
      ensures var found := FindIndex(old(tasks), id).Some?;
        && tasks == (if !found || titleAnswer.None? then old(tasks)
                     else if descAnswer.None? then Retitled(old(tasks), id, titleAnswer.value)
                     else Redescribed(Retitled(old(tasks), id, titleAnswer.value), id, descAnswer.value))
        && stored == (if found && titleAnswer.Some? && descAnswer.Some? then Some(tasks) else old(stored))
      ensures selectedTaskId == old(selectedTaskId)
    {
      var found := FindIndex(tasks, id);
      if found.None? {
        return;
      }
      var i := found.value;
      if titleAnswer.None? {
        return;
      }
      var title := Text.Trim(titleAnswer.value);
      tasks := tasks[i := tasks[i].(title := if title == [] then tasks[i].title else title)];
      if descAnswer.None? {
        return;
      }
      SameIdsSameFind(old(tasks), tasks, id);
      tasks := tasks[i := tasks[i].(desc := Text.Trim(descAnswer.value))];
      stored := Some(tasks);
    }

    /**
     * `deleteTask`: once confirmed, drops every task with `id`, clears the
     * selection exactly when it was `id`, and saves (also for an unknown id).
     */
    method DeleteTask(id: string, confirmed: bool)
      modifies this
      ensures !confirmed ==> tasks == old(tasks) && selectedTaskId == old(selectedTaskId) && stored == old(stored)
      ensures confirmed ==> tasks == Removed(old(tasks), id) && stored == Some(tasks)
      ensures confirmed ==> selectedTaskId == if old(selectedTaskId) == Some(id) then None else old(selectedTaskId)
    {
      if !confirmed {
        return;
      }
      tasks := Removed(tasks, id);
      if selectedTaskId == Some(id) {
        selectedTaskId := None;
      }
      stored := Some(tasks);
    }

    /** `selectTask`: records the id even when no task has it. */
    method SelectTask(id: string)
      modifies this
      ensures selectedTaskId == Some(id)
      ensures tasks == old(tasks) && stored == old(stored)
    {
      selectedTaskId := Some(id);
    }

    /**
     * The import handler: a confirmed file whose `tasks` is an array replaces
     * the list wholesale and is saved; the selection is kept as it was.
     */
    method ImportTasks(file: ImportFile, confirmed: bool) returns (imported: bool)
      modifies this
      ensures imported <==> file.TaskArray? && confirmed
      ensures tasks == if imported then file.tasks else old(tasks)
      ensures stored == if imported then Some(tasks) else old(stored)
      ensures selectedTaskId == old(selectedTaskId)
    {
      if file.TaskArray? && confirmed {
        tasks := file.tasks;
        stored := Some(tasks);
        return true;
      }
      return false;
    }

    /**
     * The timer's work-phase completion: when a task is linked and the first
     * task with that id is not done, marks it done and saves.
     */
    method CompleteSelected()
      modifies this
      ensures tasks == if IsLinked(selectedTaskId) then MarkedDone(old(tasks), selectedTaskId.value) else old(tasks)
      ensures stored == if tasks != old(tasks) then Some(tasks) else old(stored)
      ensures selectedTaskId == old(selectedTaskId)
    {
      if IsLinked(selectedTaskId) {
        var found := FindIndex(tasks, selectedTaskId.value);
        if found.Some? && !tasks[found.value].done {
          var i := found.value;
          tasks := tasks[i := tasks[i].(done := true)];
          stored := Some(tasks);
        }
      }
    }
  }

  /** Exporting a non-empty list and importing the file (confirmed) restores the same list. */
  method ExportThenImport(store: TaskStore, exportedAt: int)
    requires store.tasks != []
    modifies store
    ensures store.tasks == old(store.tasks)
  {
    var snapshot := ExportOf(store.tasks, exportedAt);
    var imported := store.ImportTasks(TaskArray(snapshot.value.tasks), true);
    assert imported;
  }
}
