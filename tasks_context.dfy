/**
 The stateful side of the task store: the provider that owns the current
 task list and replaces it on every operation, and the `useTasks` hook that
 hands the provider to a screen or fails when there is none.
 */
module TasksContext {
  import opened JsString
  import opened TaskStore

  datatype Option<T> = None | Some(value: T)

  datatype Result<T, E> = Success(value: T) | Failure(error: E)

  const OutsideProviderMessage: string := "useTasks must be used within a TasksProvider"

  /**
   The `TasksProvider` state. Each operation computes a new list and stores
   it in `tasks`; the clock readings the source takes are parameters.
   */
  class TasksProvider {
    var tasks: seq<Task>

    /** Every stored task has a non-empty text with no white space at its ends. */
    ghost predicate Valid()
      reads this
    {
      WellFormed(tasks)
    }

    /** The list starts out empty. */
    constructor ()
      ensures Valid()
      ensures tasks == []
    {
      tasks := [];
    }

    /** `addTask(text)` with `now` for `Date.now()` and `createdAt` for `new Date()`. */
    method AddTask(text: string, now: nat, createdAt: int)
      requires Valid()
      modifies this
      ensures Valid()
      ensures tasks == Add(old(tasks), text, now, createdAt)
      ensures AllWhitespace(text) ==> tasks == old(tasks)
      ensures !AllWhitespace(text) ==>
        && |tasks| == |old(tasks)| + 1
        && tasks[1..] == old(tasks)
        && tasks[0] == Task(DecimalString(now), Trim(text), false, createdAt)
    {
      TrimEmptyIffAllWhitespace(text);
      AddPreservesWellFormed(tasks, text, now, createdAt);
      var trimmed := Trim(text);
      if trimmed != [] {
        var newTask := Task(DecimalString(now), trimmed, false, createdAt);
        tasks := [newTask] + tasks;
      }
    }

    /** `toggleTask(id)`. */
    method ToggleTask(id: string)
      requires Valid()
      modifies this
      ensures Valid()
      ensures tasks == Toggle(old(tasks), id)
      ensures !HasId(old(tasks), id) ==> tasks == old(tasks)
    {
      TogglePreservesWellFormed(tasks, id);
      if !HasId(tasks, id) {
        ToggleAbsentIsNoop(tasks, id);
      }
      tasks := Toggle(tasks, id);
    }

    /** `deleteTask(id)`. */
    method DeleteTask(id: string)
      requires Valid()
      modifies this
      ensures Valid()
      ensures tasks == Delete(old(tasks), id)
      ensures forall t :: t in tasks ==> t.id != id
      ensures !HasId(old(tasks), id) ==> tasks == old(tasks)
    {
      DeletePreservesWellFormed(tasks, id);
      if !HasId(tasks, id) {
        DeleteAbsentIsNoop(tasks, id);
      }
      tasks := Delete(tasks, id);
    }
  }

  /** `useTasks()`: the provider in scope, or the error the hook throws without one. */
  function UseTasks(context: Option<TasksProvider>): (r: Result<TasksProvider, string>)
    ensures r.Failure? <==> context.None?
    ensures r.Success? ==> r.value == context.value
    ensures r.Failure? ==> r.error == OutsideProviderMessage
  {
    match context
    case None => Failure(OutsideProviderMessage)
    case Some(provider) => Success(provider)
  }

  /**
   An example run: from an empty list add "A" then "B" at
   two different milliseconds, toggle "B", delete "A".
   */
  lemma Walkthrough()
    ensures var l1 := Add(Add([], "A", 1, 100), "B", 2, 200);
      && l1 == [Task("2", "B", false, 200), Task("1", "A", false, 100)]
      && Toggle(l1, "2") == [Task("2", "B", true, 200), Task("1", "A", false, 100)]
      && Delete(Toggle(l1, "2"), "1") == [Task("2", "B", true, 200)]
  {
    var a, b := Task("1", "A", false, 100), Task("2", "B", false, 200);
    TrimOfTrimmed("A");
    TrimOfTrimmed("B");
    assert DecimalString(1) == "1" && DecimalString(2) == "2";
    assert Add([], "A", 1, 100) == [a];
    assert Add([a], "B", 2, 200) == [b, a];
    assert Toggle([a], "2") == [a];
    assert Toggle([b, a], "2") == [b.(completed := true), a];
    assert Delete([a], "1") == [];
    assert Delete([b.(completed := true), a], "1") == [b.(completed := true)];
  }
}
