/**
 The list transformations of the task store: each of `addTask`,
 `toggleTask` and `deleteTask` computes a new task list from the current one.
 Ids are not assumed unique: toggle and delete act on every task whose id
 matches.
 */
module TaskStore {
  import opened JsString

  /** One to-do item; `createdAt` is the creation time in milliseconds. */
  datatype Task = Task(id: string, text: string, completed: bool, createdAt: int)

  /** Number of tasks in `tasks` whose id is `id`. */
  function CountId(tasks: seq<Task>, id: string): (n: nat)
    ensures n <= |tasks|
    ensures n == 0 <==> !HasId(tasks, id)
  {
    if tasks == [] then 0
    else (if tasks[0].id == id then 1 else 0) + CountId(tasks[1..], id)
  }

  predicate HasId(tasks: seq<Task>, id: string) {
    exists t :: t in tasks && t.id == id
  }

  /** No two tasks share an id (the `Task` interface calls the id unique; nothing enforces it). */
  predicate UniqueIds(tasks: seq<Task>) {
    forall i, j :: 0 <= i < j < |tasks| ==> tasks[i].id != tasks[j].id
  }

  /** Every stored text is non-empty and has no white space at its ends. */
  predicate WellFormed(tasks: seq<Task>) {
    forall t :: t in tasks ==> t.text != [] && IsTrimmed(t.text)
  }

  /** `r` keeps some of the elements of `s`, in their original order. */
  predicate IsSubsequence(r: seq<Task>, s: seq<Task>) {
    || r == []
    || (s != [] && r[0] == s[0] && IsSubsequence(r[1..], s[1..]))
    || (s != [] && IsSubsequence(r, s[1..]))
  }

  // ---------------------------------------------------------------- addTask

  /**
   `addTask(text)`: a blank text changes nothing; otherwise a new, not yet
   completed task holding the trimmed text goes in front. Its id is the
   decimal string of the clock reading `now`, and `createdAt` is a second
   clock reading.
   */
  function Add(tasks: seq<Task>, text: string, now: nat, createdAt: int): (r: seq<Task>)
    ensures |r| == |tasks| + (if AllWhitespace(text) then 0 else 1)
    ensures r[|r| - |tasks|..] == tasks
    ensures WellFormed(tasks) ==> WellFormed(r)
  {
    TrimEmptyIffAllWhitespace(text);
    if Trim(text) != [] then
      [Task(DecimalString(now), Trim(text), false, createdAt)] + tasks
    else
      tasks
  }

  lemma AddBlankIsNoop(tasks: seq<Task>, text: string, now: nat, createdAt: int)
    requires AllWhitespace(text)
    ensures Add(tasks, text, now, createdAt) == tasks
  {
    TrimEmptyIffAllWhitespace(text);
  }

  lemma AddPrepends(tasks: seq<Task>, text: string, now: nat, createdAt: int)
    requires !AllWhitespace(text)
    ensures var r := Add(tasks, text, now, createdAt);
      && |r| == |tasks| + 1
      && r[1..] == tasks
      && r[0].id == DecimalString(now)
      && r[0].text == Trim(text) && r[0].text != [] && IsTrimmed(r[0].text)
      && StripsTo(text, r[0].text)
      && !r[0].completed
      && r[0].createdAt == createdAt
  {
    TrimEmptyIffAllWhitespace(text);
  }

  lemma AddPreservesWellFormed(tasks: seq<Task>, text: string, now: nat, createdAt: int)
    requires WellFormed(tasks)
    ensures WellFormed(Add(tasks, text, now, createdAt))
  {
  }

  /** A clock reading that no stored id came from keeps the ids unique. */
  lemma AddPreservesUniqueIds(tasks: seq<Task>, text: string, now: nat, createdAt: int)
    requires UniqueIds(tasks)
    requires !HasId(tasks, DecimalString(now))
    ensures UniqueIds(Add(tasks, text, now, createdAt))
  {
    if Trim(text) != [] {
      ConsPreservesUniqueIds(Task(DecimalString(now), Trim(text), false, createdAt), tasks);
    }
  }

  lemma ConsPreservesUniqueIds(t: Task, tasks: seq<Task>)
    requires UniqueIds(tasks) && !HasId(tasks, t.id)
    ensures UniqueIds([t] + tasks)
  {
    var r := [t] + tasks;
    forall i, j | 0 <= i < j < |r| ensures r[i].id != r[j].id {
      assert r[j] == tasks[j - 1];
      if i == 0 {
        assert r[j] in tasks;
      } else {
        assert r[i] == tasks[i - 1];
      }
    }
  }

  lemma TailPreservesUniqueIds(tasks: seq<Task>)
    requires tasks != [] && UniqueIds(tasks)
    ensures UniqueIds(tasks[1..]) && !HasId(tasks[1..], tasks[0].id)
  {
    var tail := tasks[1..];
    forall i, j | 0 <= i < j < |tail| ensures tail[i].id != tail[j].id {
      assert tail[i] == tasks[i + 1] && tail[j] == tasks[j + 1];
    }
    forall t | t in tail ensures t.id != tasks[0].id {
      var k :| 0 <= k < |tail| && tail[k] == t;
      assert tasks[k + 1] == t;
    }
  }

  /** Two non-blank adds in the same millisecond store two tasks with one id. */
  lemma SameMillisecondAddsShareId(tasks: seq<Task>, a: string, b: string, now: nat, t1: int, t2: int)
    requires !AllWhitespace(a) && !AllWhitespace(b)
    ensures var r := Add(Add(tasks, a, now, t1), b, now, t2);
      |r| == |tasks| + 2 && r[0].id == r[1].id && !UniqueIds(r)
  {
    AddPrepends(tasks, a, now, t1);
    AddPrepends(Add(tasks, a, now, t1), b, now, t2);
  }

  /** Adds at different milliseconds produce different ids. */
  lemma DistinctClockReadingsDistinctIds(tasks: seq<Task>, a: string, b: string, n1: nat, n2: nat, t1: int, t2: int)
    requires !AllWhitespace(a) && !AllWhitespace(b)
    requires n1 != n2
    ensures var r := Add(Add(tasks, a, n1, t1), b, n2, t2);
      |r| == |tasks| + 2 && r[0].id != r[1].id
  {
    AddPrepends(tasks, a, n1, t1);
    AddPrepends(Add(tasks, a, n1, t1), b, n2, t2);
    if DecimalString(n1) == DecimalString(n2) {
      DecimalStringInjective(n1, n2);
    }
  }

  // ------------------------------------------------------------- toggleTask

  /** `toggleTask(id)`: inverts `completed` on every task whose id is `id`. */
  function Toggle(tasks: seq<Task>, id: string): (r: seq<Task>)
    ensures |r| == |tasks|
    ensures forall i :: 0 <= i < |tasks| ==>
      && r[i].id == tasks[i].id
      && r[i].text == tasks[i].text
      && r[i].createdAt == tasks[i].createdAt
      && r[i].completed == (tasks[i].completed != (tasks[i].id == id))
  {
    if tasks == [] then []
    else
      var t := tasks[0];
      [if t.id == id then t.(completed := !t.completed) else t] + Toggle(tasks[1..], id)
  }

  lemma {:induction false} ToggleTwiceIsIdentity(tasks: seq<Task>, id: string)
    ensures Toggle(Toggle(tasks, id), id) == tasks
  {
    if tasks != [] {
      ToggleTwiceIsIdentity(tasks[1..], id);
      assert Toggle(tasks, id)[1..] == Toggle(tasks[1..], id);
    }
  }

  lemma {:induction false} ToggleAbsentIsNoop(tasks: seq<Task>, id: string)
    requires !HasId(tasks, id)
    ensures Toggle(tasks, id) == tasks
  {
    if tasks != [] {
      assert tasks[0] in tasks;
      assert !HasId(tasks[1..], id) by {
        forall t | t in tasks[1..] ensures t.id != id {
          assert t in tasks;
        }
      }
      ToggleAbsentIsNoop(tasks[1..], id);
    }
  }

  lemma TogglePreservesWellFormed(tasks: seq<Task>, id: string)
    requires WellFormed(tasks)
    ensures WellFormed(Toggle(tasks, id))
  {
    var r := Toggle(tasks, id);
    forall t | t in r ensures t.text != [] && IsTrimmed(t.text) {
      var i :| 0 <= i < |r| && r[i] == t;
      assert tasks[i] in tasks;
    }
  }

  lemma TogglePreservesUniqueIds(tasks: seq<Task>, id: string)
    requires UniqueIds(tasks)
    ensures UniqueIds(Toggle(tasks, id))
  {
  }

  // ------------------------------------------------------------- deleteTask

  /** `deleteTask(id)`: keeps exactly the tasks whose id is not `id`. */
  function Delete(tasks: seq<Task>, id: string): (r: seq<Task>)
    ensures forall t :: t in r ==> t in tasks && t.id != id
    ensures forall t :: t in tasks && t.id != id ==> t in r
    ensures |r| == |tasks| - CountId(tasks, id)
  {
    if tasks == [] then []
    else if tasks[0].id == id then Delete(tasks[1..], id)
    else [tasks[0]] + Delete(tasks[1..], id)
  }

  lemma {:induction false} DeleteAppend(a: seq<Task>, b: seq<Task>, id: string)
    ensures Delete(a + b, id) == Delete(a, id) + Delete(b, id)
  {
    if a != [] {
      assert (a + b)[0] == a[0];
      assert (a + b)[1..] == a[1..] + b;
      DeleteAppend(a[1..], b, id);
      if a[0].id != id {
        assert [a[0]] + (Delete(a[1..], id) + Delete(b, id)) == ([a[0]] + Delete(a[1..], id)) + Delete(b, id);
      }
    } else {
      assert a + b == b;
    }
  }

  /** The survivors keep their original relative order. */
  lemma {:induction false} DeleteIsSubsequence(tasks: seq<Task>, id: string)
    ensures IsSubsequence(Delete(tasks, id), tasks)
  {
    if tasks != [] {
      DeleteIsSubsequence(tasks[1..], id);
      if tasks[0].id != id {
        assert Delete(tasks, id)[1..] == Delete(tasks[1..], id);
      }
    }
  }

  lemma {:induction false} DeleteAbsentIsNoop(tasks: seq<Task>, id: string)
    requires !HasId(tasks, id)
    ensures Delete(tasks, id) == tasks
  {
    if tasks != [] {
      assert tasks[0] in tasks;
      assert !HasId(tasks[1..], id) by {
        forall t | t in tasks[1..] ensures t.id != id {
          assert t in tasks;
        }
      }
      DeleteAbsentIsNoop(tasks[1..], id);
    }
  }

  lemma DeleteIdempotent(tasks: seq<Task>, id: string)
    ensures Delete(Delete(tasks, id), id) == Delete(tasks, id)
  {
    DeleteAbsentIsNoop(Delete(tasks, id), id);
  }

  /** With unique ids, deleting a present id removes exactly one task. */
  lemma {:induction false} DeleteUniquePresentRemovesOne(tasks: seq<Task>, id: string)
    requires UniqueIds(tasks) && HasId(tasks, id)
    ensures |Delete(tasks, id)| == |tasks| - 1
  {
    TailPreservesUniqueIds(tasks);
    if tasks[0].id == id {
      DeleteAbsentIsNoop(tasks[1..], id);
    } else {
      assert HasId(tasks[1..], id) by {
        var t :| t in tasks && t.id == id;
        var j :| 0 <= j < |tasks| && tasks[j] == t;
        assert tasks[1..][j - 1] == t;
      }
      DeleteUniquePresentRemovesOne(tasks[1..], id);
    }
  }

  lemma DeletePreservesWellFormed(tasks: seq<Task>, id: string)
    requires WellFormed(tasks)
    ensures WellFormed(Delete(tasks, id))
  {
  }

  lemma {:induction false} DeletePreservesUniqueIds(tasks: seq<Task>, id: string)
    requires UniqueIds(tasks)
    ensures UniqueIds(Delete(tasks, id))
  {
    if tasks != [] {
      TailPreservesUniqueIds(tasks);
      DeletePreservesUniqueIds(tasks[1..], id);
      if tasks[0].id != id {
        ConsPreservesUniqueIds(tasks[0], Delete(tasks[1..], id));
      }
    }
  }

  /** Toggling and then deleting the same id is the same as deleting it. */
  lemma {:induction false} DeleteAfterToggle(tasks: seq<Task>, id: string)
    ensures Delete(Toggle(tasks, id), id) == Delete(tasks, id)
  {
    if tasks != [] {
      assert Toggle(tasks, id)[1..] == Toggle(tasks[1..], id);
      DeleteAfterToggle(tasks[1..], id);
    }
  }
}
