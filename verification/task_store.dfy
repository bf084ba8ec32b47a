/**
 * The task store as an explicit state value. Each operation of the store is
 * a pure function from the current state (and its arguments) to the next
 * state and the value the operation returns.
 */
module TaskStore {
  import opened Wrappers
  import opened TaskTypes
  import opened TaskViews

  /**
   * The store: the insertion-ordered task list and the identifier the next
   * added task will receive. Clearing the list does not reset the counter,
   * so an identifier is never handed out twice.
   */
  datatype Store = Store(tasks: seq<Task>, nextId: Id)

  /** The store as the program starts: no tasks. */
  const Initial: Store := Store([], 0)

  /** Identifiers are pairwise distinct and all below the counter. */
  predicate Valid(s: Store) {
    && DistinctIds(s.tasks)
    && forall i :: 0 <= i < |s.tasks| ==> s.tasks[i].id < s.nextId
  }

  lemma InitialValid()
    ensures Valid(Initial)
  {
  }

  /**
   * The full task list (`allTasks`). Every task in it shows up under exactly
   * one of the four statuses, so the per-status counts add up to its length.
   */
  function AllTasks(s: Store): (r: seq<Task>)
    ensures |r| == GetTaskCount(s, Backlog) + GetTaskCount(s, Doing)
                   + GetTaskCount(s, Review) + GetTaskCount(s, Done)
  {
    CountsPartition(s.tasks);
    s.tasks
  }

  /** `getTasksByStatus`: the tasks of status `st`, recomputed from the state. */
  function GetTasksByStatus(s: Store, st: Status): (r: seq<Task>)
    ensures forall t :: t in r <==> t in s.tasks && t.status == st
    ensures IsSubsequence(r, s.tasks)
  {
    FilterByStatus(s.tasks, st)
  }

  /** `getTaskCount`: how many tasks have status `st`. */
  function GetTaskCount(s: Store, st: Status): (r: nat)
    ensures r == |GetTasksByStatus(s, st)|
    ensures r <= |s.tasks|
  {
    CountByStatus(s.tasks, st)
  }

  /** `getTaskById`: the first task with identifier `id`, or `None`. */
  function GetTaskById(s: Store, id: Id): (r: Option<Task>)
    ensures r.None? <==> !HasId(s.tasks, id)
    ensures r.Some? ==> r.value in s.tasks && r.value.id == id
    ensures r.Some? ==> exists i :: 0 <= i < |s.tasks| && s.tasks[i] == r.value
                                    && forall j :: 0 <= j < i ==> s.tasks[j].id != id
  {
    Find(s.tasks, id)
  }

  /**
   * `addTask`: append a task built from `nt` with a fresh identifier and
   * return the task.
   */
  function AddTask(s: Store, nt: NewTask): (r: (Store, Task))
    ensures r.0.tasks == s.tasks + [r.1]
    ensures r.1.title == nt.title && r.1.description == nt.description && r.1.status == nt.status
    ensures Valid(s) ==> !HasId(s.tasks, r.1.id) && Valid(r.0)
  {
    var t := WithId(nt, s.nextId);
    (Store(s.tasks + [t], s.nextId + 1), t)
  }

  /**
   * `updateTask`: merge patch `p` into the first task with identifier `id`
   * and return the merged task; `None`, and no change, when there is none.
   */
  function UpdateTask(s: Store, id: Id, p: Patch): (r: (Store, Option<Task>))
    ensures r.1.None? <==> !HasId(s.tasks, id)
    ensures r.1.None? ==> r.0 == s
    ensures r.1.Some? ==> r.1.value.id == id && r.0.nextId == s.nextId && |r.0.tasks| == |s.tasks|
    ensures r.1.Some? ==>
              exists i :: 0 <= i < |s.tasks| && s.tasks[i].id == id
                          && (forall j :: 0 <= j < i ==> s.tasks[j].id != id)
                          && r.1.value == ApplyPatch(s.tasks[i], p) && r.0.tasks[i] == r.1.value
                          && forall j :: 0 <= j < |s.tasks| && j != i ==> r.0.tasks[j] == s.tasks[j]
    ensures forall j :: 0 <= j < |r.0.tasks| ==> j < |s.tasks| && r.0.tasks[j].id == s.tasks[j].id
    ensures Valid(s) ==> Valid(r.0)
  {
    match FindIndex(s.tasks, id)
    case Some(i) =>
      var t := ApplyPatch(s.tasks[i], p);
      (s.(tasks := s.tasks[i := t]), Some(t))
    case None => (s, None)
  }

  /** `moveTask`: the update that sets the status alone. */
  function MoveTask(s: Store, id: Id, st: Status): (r: (Store, Option<Task>))
    ensures r.1.None? <==> !HasId(s.tasks, id)
    ensures r.1.None? ==> r.0 == s
    ensures r.1.Some? ==> r.1.value.id == id && r.1.value.status == st
    ensures r == UpdateTask(s, id, StatusPatch(st))
  {
    UpdateTask(s, id, StatusPatch(st))
  }

  /**
   * `deleteTask`: remove the first task with identifier `id` and report
   * whether one was there.
   */
  function DeleteTask(s: Store, id: Id): (r: (Store, bool))
    ensures r.1 <==> HasId(s.tasks, id)
    ensures !r.1 ==> r.0 == s
    ensures r.0.nextId == s.nextId
    ensures r.1 ==> |r.0.tasks| == |s.tasks| - 1
    ensures r.1 ==>
              exists i :: 0 <= i < |s.tasks| && s.tasks[i].id == id
                          && (forall j :: 0 <= j < i ==> s.tasks[j].id != id)
                          && (forall j :: 0 <= j < i ==> r.0.tasks[j] == s.tasks[j])
                          && (forall j :: i <= j < |r.0.tasks| ==> r.0.tasks[j] == s.tasks[j + 1])
    ensures IsSubsequence(r.0.tasks, s.tasks)
    ensures Valid(s) ==> Valid(r.0)
  {
    match FindIndex(s.tasks, id)
    case Some(i) =>
      RemoveAtIsSubsequence(s.tasks, i);
      (s.(tasks := s.tasks[..i] + s.tasks[i + 1..]), true)
    case None =>
      SubsequenceRefl(s.tasks);
      (s, false)
  }

  /** `clearAllTasks`: empty the list. */
  function ClearAllTasks(s: Store): (r: Store)
    ensures r.tasks == [] && r.nextId == s.nextId
    ensures forall st :: GetTaskCount(r, st) == 0
    ensures Valid(r)
  {
    s.(tasks := [])
  }

  /** The eight tasks `initializeSampleData` seeds, in order. */
  const SampleTasks: seq<NewTask> := [
    NewTask("Design database schema", "Create the initial database design for the project", Backlog),
    NewTask("Setup project repository", "Initialize Git repo and configure CI/CD", Backlog),
    NewTask("Build API endpoints", "Implement RESTful API for task management", Doing),
    NewTask("Create UI components", "Design and implement reusable Vue components", Review),
    NewTask("Write unit tests", "Add comprehensive test coverage", Review),
    NewTask("Setup development environment", "Configure local dev tools and dependencies", Done),
    NewTask("Documentation", "Write project documentation and README", Done),
    NewTask("Code review process", "Establish code review guidelines", Done)
  ]

  /** `addTask` applied to each of `nts` in turn (the `forEach` of the seeding). */
  function AddAll(s: Store, nts: seq<NewTask>): (r: Store)
    ensures |r.tasks| == |s.tasks| + |nts|
    ensures r.nextId == s.nextId + |nts|
    ensures r.tasks[..|s.tasks|] == s.tasks
    ensures forall k :: 0 <= k < |nts| ==> r.tasks[|s.tasks| + k] == WithId(nts[k], s.nextId + k)
    ensures Valid(s) ==> Valid(r)
    decreases |nts|
  {
    if |nts| == 0 then s
    else
      var s' := AddTask(s, nts[0]).0;
      var r := AddAll(s', nts[1..]);
      assert r.tasks[..|s.tasks|] == r.tasks[..|s'.tasks|][..|s.tasks|];
      r
  }

  /** `initializeSampleData`: append the eight sample tasks. */
  function InitializeSampleData(s: Store): (r: Store)
    ensures |r.tasks| == |s.tasks| + 8
    ensures r.tasks[..|s.tasks|] == s.tasks
    ensures forall k :: 0 <= k < 8 ==> r.tasks[|s.tasks| + k] == WithId(SampleTasks[k], s.nextId + k)
    ensures Valid(s) ==> Valid(r)
  {
    assert |SampleTasks| == 8;
    AddAll(s, SampleTasks)
  }
}
