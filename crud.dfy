/** The `TodoApp` controller of `src/modules/crud.js`, reduced to the state it
    owns: the task list `todoTask` and the `todoTasks` entry of local storage
    that it rewrites after every change. */
module Crud {
  import opened JsString
  import opened TaskList

  datatype Option<T> = None | Some(value: T)

  class TodoApp {
    /** `this.todoTask`: the tasks in display order. */
    var todoTask: seq<Task>
    /** The `todoTasks` entry of local storage, as the list it last received;
        `None` while nothing has been written. */
    var stored: Option<seq<Task>>

    /** What every public operation leaves behind: the list is in display
        order and local storage holds exactly that list. */
    ghost predicate Valid()
      reads this
    {
      SortedByIndex(todoTask) && stored == Some(todoTask)
    }

    /** Loads the saved list (`saved` is the parsed storage entry, `None` when
        it is absent or parses to nothing), or starts empty, then renders. */
    constructor (saved: Option<seq<Task>>)
      ensures Valid()
      ensures todoTask == SortByIndex(if saved.Some? then saved.value else [])
      ensures multiset(todoTask) == multiset(if saved.Some? then saved.value else [])
    {
      todoTask := if saved.Some? then saved.value else [];
      stored := saved;
      new;
      Render();
    }

    /** `sortTasks`: reorders the list by ascending index, stably. */
    method SortTasks()
      modifies this
      ensures todoTask == SortByIndex(old(todoTask))
      ensures SortedByIndex(todoTask) && multiset(todoTask) == multiset(old(todoTask))
      ensures SortedByIndex(old(todoTask)) ==> todoTask == old(todoTask)
      ensures stored == old(stored)
    {
      SortByIndexIsSorted(todoTask);
      if SortedByIndex(todoTask) {
        SortSortedIsIdentity(todoTask);
      }
      todoTask := SortByIndex(todoTask);
    }

    /** `updateLocalStorage`: overwrites the storage entry with the list. */
    method UpdateLocalStorage()
      modifies this
      ensures stored == Some(todoTask) && todoTask == old(todoTask)
    {
      stored := Some(todoTask);
    }

    /** The part of `render` that touches the list: sort it, then persist it. */
    method Render()
      modifies this
      ensures Valid()
      ensures todoTask == SortByIndex(old(todoTask))
    {
      SortTasks();
      UpdateLocalStorage();
    }

    /** The `forEach` that sets every task's index to its position + 1. */
    method RenumberTasks()
      modifies this
      ensures todoTask == Renumbered(old(todoTask))
      ensures Contiguous(todoTask) && SameContent(todoTask, old(todoTask))
      ensures stored == old(stored)
    {
      ghost var before := todoTask;
      var i := 0;
      while i < |todoTask|
        invariant 0 <= i <= |todoTask| == |before|
        invariant forall j :: 0 <= j < i ==> todoTask[j] == before[j].(index := j + 1)
        invariant forall j :: i <= j < |todoTask| ==> todoTask[j] == before[j]
        invariant stored == old(stored)
      {
        todoTask := todoTask[i := todoTask[i].(index := i + 1)];
        i := i + 1;
      }
    }

    /** `addTask`: blank input is ignored; anything else is appended as an
        open task ranked after the current length, and the list is rendered. */
    method AddTask(description: string)
      modifies this
      ensures Trim(description) == "" ==>
                todoTask == old(todoTask) && stored == old(stored)
      ensures Trim(description) != "" ==>
                && Valid()
                && todoTask == SortByIndex(old(todoTask) + [Task(description, false, |old(todoTask)| + 1)])
                && multiset(todoTask) == multiset(old(todoTask)) + multiset{Task(description, false, |old(todoTask)| + 1)}
      ensures Trim(description) != "" && Contiguous(old(todoTask)) ==>
                todoTask == old(todoTask) + [Task(description, false, |old(todoTask)| + 1)]
      ensures Contiguous(old(todoTask)) ==> Contiguous(todoTask)
      ensures Trim(description) != "" && SortedByIndex(old(todoTask)) ==>
                (Contiguous(todoTask) <==> Contiguous(old(todoTask)))
      ensures old(Valid()) ==> Valid()
    {
      if Trim(description) != "" {
        var newTask := Task(description, false, |todoTask| + 1);
        if Contiguous(todoTask) {
          AppendNextKeepsContiguous(todoTask, newTask);
        }
        if SortedByIndex(todoTask) {
          AppendNextContiguousIff(todoTask, newTask);
        }
        todoTask := todoTask + [newTask];
        UpdateLocalStorage();
        Render();
      }
    }

    /** `deleteTask`: removes the task at `taskId` (nothing when there is no
        such position), renumbers the rest 1..N in order and renders. */
    method DeleteTask(taskId: nat)
      modifies this
      ensures Valid() && Contiguous(todoTask)
      ensures todoTask == Renumbered(Splice(old(todoTask), taskId))
      ensures taskId < |old(todoTask)| ==>
                && |todoTask| == |old(todoTask)| - 1
                && (forall j :: 0 <= j < taskId ==>
                      todoTask[j] == old(todoTask)[j].(index := j + 1))
                && (forall j :: taskId <= j < |todoTask| ==>
                      todoTask[j] == old(todoTask)[j + 1].(index := j + 1))
      ensures |old(todoTask)| <= taskId ==> SameContent(todoTask, old(todoTask))
    {
      ghost var before := todoTask;
      todoTask := Splice(todoTask, taskId);
      RenumberTasks();
      UpdateLocalStorage();
      SortContiguousIsIdentity(todoTask);
      Render();
      if taskId < |before| {
        DeleteResult(before, taskId);
      }
    }

    /** `editTask`: replaces the description at `taskId` and persists; does
        nothing when there is no such position. The list is not re-rendered. */
    method EditTask(taskId: nat, newDescription: string)
      modifies this
      ensures |todoTask| == |old(todoTask)|
      ensures forall j :: 0 <= j < |todoTask| && j != taskId ==> todoTask[j] == old(todoTask)[j]
      ensures taskId < |todoTask| ==>
                && todoTask[taskId].description == newDescription
                && todoTask[taskId].completed == old(todoTask)[taskId].completed
                && todoTask[taskId].index == old(todoTask)[taskId].index
                && stored == Some(todoTask)
      ensures |todoTask| <= taskId ==> todoTask == old(todoTask) && stored == old(stored)
      ensures old(Valid()) ==> Valid()
      ensures Contiguous(old(todoTask)) ==> Contiguous(todoTask)
    {
      if taskId < |todoTask| {
        todoTask := todoTask[taskId := todoTask[taskId].(description := newDescription)];
        UpdateLocalStorage();
      }
    }

    /** `clearAllCompletedTasks`: the list becomes whatever `clearAllCompleted`
        returns for it, renumbered 1..N in that order, and is rendered. */
    method ClearAllCompletedTasks(clearAllCompleted: seq<Task> -> seq<Task>)
      modifies this
      ensures Valid() && Contiguous(todoTask)
      ensures todoTask == Renumbered(clearAllCompleted(old(todoTask)))
      ensures SameContent(todoTask, clearAllCompleted(old(todoTask)))
    {
      todoTask := clearAllCompleted(todoTask);
      RenumberTasks();
      UpdateLocalStorage();
      SortContiguousIsIdentity(todoTask);
      Render();
    }
  }

  /** The three inputs of `Session`: two that `addTask` accepts and one it
      ignores. */
  lemma SessionInputs(first: string, second: string, blank: string)
    requires first != [] && !IsWhitespace(first[0])
    requires second != [] && !IsWhitespace(second[0])
    requires forall i :: 0 <= i < |blank| ==> IsWhitespace(blank[i])
    ensures Trim(first) != "" && Trim(second) != "" && Trim(blank) == ""
  {
    TrimEmptyIffAllWhitespace(first);
    TrimEmptyIffAllWhitespace(second);
    TrimEmptyIffAllWhitespace(blank);
  }

  /** From an empty start: add `first`, ignore `blank`, add `second`. */
  method SessionAdd(first: string, second: string, blank: string) returns (app: TodoApp)
    requires Trim(first) != "" && Trim(second) != "" && Trim(blank) == ""
    ensures fresh(app)
    ensures app.todoTask == [Task(first, false, 1), Task(second, false, 2)]
    ensures app.stored == Some(app.todoTask)
  {
    app := new TodoApp(None);
    assert app.todoTask == [] && Contiguous(app.todoTask);
    app.AddTask(first);
    assert app.todoTask == [Task(first, false, 1)];
    app.AddTask(blank);
    assert app.todoTask == [Task(first, false, 1)] && Contiguous(app.todoTask);
    app.AddTask(second);
    assert app.todoTask == [Task(first, false, 1)] + [Task(second, false, 2)];
  }

  /** Editing a missing position changes nothing; deleting position 0 leaves
      the second task, renumbered 1. */
  method SessionEditDelete(app: TodoApp, first: string, second: string, other: string)
    requires app.todoTask == [Task(first, false, 1), Task(second, false, 2)]
    modifies app
    ensures app.todoTask == [Task(second, false, 1)] && app.stored == Some(app.todoTask)
  {
    app.EditTask(5, other);
    assert app.todoTask == [Task(first, false, 1), Task(second, false, 2)];
    app.DeleteTask(0);
  }

  /** A session as the page drives it: start empty, add two tasks, ignore a
      blank input, edit a missing position, delete the first task. */
  method Session(first: string, second: string, blank: string)
    requires first != [] && !IsWhitespace(first[0])
    requires second != [] && !IsWhitespace(second[0])
    requires forall i :: 0 <= i < |blank| ==> IsWhitespace(blank[i])
  {
    SessionInputs(first, second, blank);
    var app := SessionAdd(first, second, blank);
    SessionEditDelete(app, first, second, blank);
    assert app.todoTask == [Task(second, false, 1)];
  }
}
