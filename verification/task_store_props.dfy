/**
 * Properties that relate several store operations: what a lookup sees after
 * each mutation, how each mutation moves the per-status counts, and that no
 * sequence of operations can make two tasks share an identifier.
 */
module TaskStoreProps {
  import opened Wrappers
  import opened TaskTypes
  import opened TaskViews
  import opened TaskStore

  /** Two lists with distinct identifiers that hold the same tasks of identifier `id` agree on its lookup. */
  lemma FindAgrees(a: seq<Task>, b: seq<Task>, id: Id)
    requires DistinctIds(a) && DistinctIds(b)
    requires forall t: Task :: t.id == id ==> (t in a <==> t in b)
    ensures Find(a, id) == Find(b, id)
  {
    if HasId(a, id) {
      var u := Find(a, id).value;
      FindUnique(a, id, u);
      FindUnique(b, id, u);
    } else if HasId(b, id) {
      var u := Find(b, id).value;
      FindUnique(b, id, u);
    }
  }

  /** After `addTask`, the new task is found under its identifier and every other lookup is unchanged. */
  lemma AddThenLookup(s: Store, nt: NewTask, id: Id)
    requires Valid(s)
    ensures var (s', t) := AddTask(s, nt);
            GetTaskById(s', t.id) == Some(t)
            && (id != t.id ==> GetTaskById(s', id) == GetTaskById(s, id))
  {
    var (s', t) := AddTask(s, nt);
    FindUnique(s'.tasks, t.id, t);
    if id != t.id {
      FindAgrees(s.tasks, s'.tasks, id);
    }
  }

  /**
   * After `updateTask` on a present identifier, the lookup returns the old
   * task with the patch merged in (which is what the update returned), and
   * every other lookup is unchanged.
   */
  lemma UpdateThenLookup(s: Store, id: Id, p: Patch, other: Id)
    requires Valid(s) && HasId(s.tasks, id)
    ensures var (s', r) := UpdateTask(s, id, p);
            && r == Some(ApplyPatch(GetTaskById(s, id).value, p))
            && GetTaskById(s', id) == r
            && (other != id ==> GetTaskById(s', other) == GetTaskById(s, other))
  {
    var (s', r) := UpdateTask(s, id, p);
    var i := FindIndex(s.tasks, id).value;
    assert s'.tasks == s.tasks[i := ApplyPatch(s.tasks[i], p)];
    FindUnique(s'.tasks, id, r.value);
    if other != id {
      forall t: Task | t.id == other
        ensures t in s.tasks <==> t in s'.tasks
      {
        if t in s.tasks {
          var k :| 0 <= k < |s.tasks| && s.tasks[k] == t;
          assert s'.tasks[k] == t;
        }
        if t in s'.tasks {
          var k :| 0 <= k < |s'.tasks| && s'.tasks[k] == t;
          assert s.tasks[k] == t;
        }
      }
      FindAgrees(s.tasks, s'.tasks, other);
    }
  }

  /** An update or move on an absent identifier returns `None` and leaves the store identical. */
  lemma UpdateAbsentIsNoop(s: Store, id: Id, p: Patch, st: Status)
    requires !HasId(s.tasks, id)
    ensures UpdateTask(s, id, p) == (s, None)
    ensures MoveTask(s, id, st) == (s, None)
  {
  }

  /**
   * After `deleteTask`, the identifier is no longer found (identifiers being
   * distinct, the first match was the only one) and every other lookup is
   * unchanged.
   */
  lemma DeleteThenLookup(s: Store, id: Id, other: Id)
    requires Valid(s)
    ensures var (s', _) := DeleteTask(s, id);
            && GetTaskById(s', id) == None
            && (other != id ==> GetTaskById(s', other) == GetTaskById(s, other))
  {
    var (s', found) := DeleteTask(s, id);
    if found {
      var i := FindIndex(s.tasks, id).value;
      assert s'.tasks == s.tasks[..i] + s.tasks[i + 1..];
      forall t | t in s.tasks && t != s.tasks[i]
        ensures t in s'.tasks
      {
        var k :| 0 <= k < |s.tasks| && s.tasks[k] == t;
        if k < i {
          assert s'.tasks[k] == t;
        } else {
          assert s'.tasks[k - 1] == t;
        }
      }
      forall k | 0 <= k < |s'.tasks|
        ensures s'.tasks[k].id != id
      {
        if k < i {
          assert s'.tasks[k] == s.tasks[k];
        } else {
          assert s'.tasks[k] == s.tasks[k + 1];
        }
      }
      if other != id {
        FindAgrees(s.tasks, s'.tasks, other);
      }
    }
  }

  /** Removing one task lowers exactly the count of its status by one. */
  lemma CountRemoveAt(ts: seq<Task>, i: nat, st: Status)
    requires i < |ts|
    ensures CountByStatus(ts[..i] + ts[i + 1..], st) + Indicator(ts[i], st) == CountByStatus(ts, st)
  {
    assert ts == ts[..i] + [ts[i]] + ts[i + 1..];
    CountAppend(ts[..i] + [ts[i]], ts[i + 1..], st);
    CountAppend(ts[..i], [ts[i]], st);
    CountAppend(ts[..i], ts[i + 1..], st);
    CountSingleton(ts[i], st);
  }

  /** Replacing one task moves one unit of count from its old status to its new one. */
  lemma CountReplaceAt(ts: seq<Task>, i: nat, x: Task, st: Status)
    requires i < |ts|
    ensures CountByStatus(ts[i := x], st) + Indicator(ts[i], st) == CountByStatus(ts, st) + Indicator(x, st)
  {
    var us := ts[i := x];
    assert us[..i] == ts[..i] && us[i + 1..] == ts[i + 1..];
    CountRemoveAt(ts, i, st);
    CountRemoveAt(us, i, st);
  }

  /** `addTask` raises the count of the new task's status by one and leaves the others. */
  lemma AddCount(s: Store, nt: NewTask, st: Status)
    ensures GetTaskCount(AddTask(s, nt).0, st) == GetTaskCount(s, st) + (if nt.status == st then 1 else 0)
  {
    var (s', t) := AddTask(s, nt);
    CountAppend(s.tasks, [t], st);
    CountSingleton(t, st);
  }

  /** `updateTask` moves one unit of count from the old task's status to the merged task's status. */
  lemma UpdateCount(s: Store, id: Id, p: Patch, st: Status)
    requires HasId(s.tasks, id)
    ensures var prev := GetTaskById(s, id).value;
            var (s', r) := UpdateTask(s, id, p);
            GetTaskCount(s', st) + Indicator(prev, st) == GetTaskCount(s, st) + Indicator(r.value, st)
  {
    var i := FindIndex(s.tasks, id).value;
    CountReplaceAt(s.tasks, i, ApplyPatch(s.tasks[i], p), st);
  }

  /** `deleteTask` on a present identifier lowers the count of the removed task's status by one. */
  lemma DeleteCount(s: Store, id: Id, st: Status)
    requires HasId(s.tasks, id)
    ensures var prev := GetTaskById(s, id).value;
            GetTaskCount(DeleteTask(s, id).0, st) + Indicator(prev, st) == GetTaskCount(s, st)
  {
    var i := FindIndex(s.tasks, id).value;
    CountRemoveAt(s.tasks, i, st);
  }

  /** How many of the new tasks `nts` have status `st`. */
  function NewCount(nts: seq<NewTask>, st: Status): nat
    decreases |nts|
  {
    if |nts| == 0 then 0
    else (if nts[0].status == st then 1 else 0) + NewCount(nts[1..], st)
  }

  /** Peeling one new task off the front of a suffix. */
  lemma NewCountStep(nts: seq<NewTask>, k: nat, st: Status)
    requires k < |nts|
    ensures NewCount(nts[k..], st) == (if nts[k].status == st then 1 else 0) + NewCount(nts[k + 1..], st)
  {
    assert nts[k..][1..] == nts[k + 1..];
  }

  /** The sample list holds two backlog, one doing, two review and three done tasks. */
  lemma SampleStatusCounts(st: Status)
    ensures NewCount(SampleTasks, st) == match st
                                         case Backlog => 2
                                         case Doing => 1
                                         case Review => 2
                                         case Done => 3
  {
    var a := SampleTasks;
    assert a[8..] == [];
    NewCountStep(a, 7, st);
    NewCountStep(a, 6, st);
    NewCountStep(a, 5, st);
    NewCountStep(a, 4, st);
    NewCountStep(a, 3, st);
    NewCountStep(a, 2, st);
    NewCountStep(a, 1, st);
    NewCountStep(a, 0, st);
    assert a[0..] == a;
  }

  /** Adding a batch raises each count by the number of batch tasks with that status. */
  lemma {:induction false} AddAllCount(s: Store, nts: seq<NewTask>, st: Status)
    ensures GetTaskCount(AddAll(s, nts), st) == GetTaskCount(s, st) + NewCount(nts, st)
    decreases |nts|
  {
    if |nts| > 0 {
      AddCount(s, nts[0], st);
      AddAllCount(AddTask(s, nts[0]).0, nts[1..], st);
    }
  }

  /** Seeding adds two backlog, one doing, two review and three done tasks. */
  lemma SampleDataCounts(s: Store)
    ensures var r := InitializeSampleData(s);
            && |r.tasks| == |s.tasks| + 8
            && GetTaskCount(r, Backlog) == GetTaskCount(s, Backlog) + 2
            && GetTaskCount(r, Doing) == GetTaskCount(s, Doing) + 1
            && GetTaskCount(r, Review) == GetTaskCount(s, Review) + 2
            && GetTaskCount(r, Done) == GetTaskCount(s, Done) + 3
  {
    AddAllCount(s, SampleTasks, Backlog);
    AddAllCount(s, SampleTasks, Doing);
    AddAllCount(s, SampleTasks, Review);
    AddAllCount(s, SampleTasks, Done);
    SampleStatusCounts(Backlog);
    SampleStatusCounts(Doing);
    SampleStatusCounts(Review);
    SampleStatusCounts(Done);
  }

  /** After clearing, the list is empty and every column count is zero, whatever came before. */
  lemma ClearEmptiesEveryView(s: Store, st: Status)
    ensures AllTasks(ClearAllTasks(s)) == []
    ensures GetTasksByStatus(ClearAllTasks(s), st) == []
    ensures GetTaskCount(ClearAllTasks(s), st) == 0
  {
  }

  /** One call into the store. */
  datatype Op =
    | Add(nt: NewTask)
    | Update(id: Id, p: Patch)
    | Delete(id: Id)
    | Move(id: Id, st: Status)
    | Clear
    | Seed

  /** The state after one call. */
  function Step(s: Store, op: Op): Store {
    match op
    case Add(nt) => AddTask(s, nt).0
    case Update(id, p) => UpdateTask(s, id, p).0
    case Delete(id) => DeleteTask(s, id).0
    case Move(id, st) => MoveTask(s, id, st).0
    case Clear => ClearAllTasks(s)
    case Seed => InitializeSampleData(s)
  }

  /** The state after a sequence of calls, in order. */
  function Run(s: Store, ops: seq<Op>): Store
    decreases |ops|
  {
    if |ops| == 0 then s else Run(Step(s, ops[0]), ops[1..])
  }

  /** No sequence of calls, starting from a valid store, makes two tasks share an identifier. */
  lemma {:induction false} RunPreservesValid(s: Store, ops: seq<Op>)
    requires Valid(s)
    ensures Valid(Run(s, ops))
    ensures DistinctIds(Run(s, ops).tasks)
    decreases |ops|
  {
    if |ops| > 0 {
      RunPreservesValid(Step(s, ops[0]), ops[1..]);
    }
  }

  /** Every task the program ever holds has its own identifier. */
  lemma ReachableStoresHaveDistinctIds(ops: seq<Op>)
    ensures DistinctIds(Run(Initial, ops).tasks)
  {
    RunPreservesValid(Initial, ops);
  }

  /**
   * The walk-through: add one task to an empty store, move it to done,
   * delete it.
   */
  lemma AddMoveDeleteScenario()
    ensures var (s1, t) := AddTask(Initial, NewTask("A", "d", Backlog));
            && |AllTasks(s1)| == 1
            && GetTaskCount(s1, Backlog) == 1 && GetTaskCount(s1, Done) == 0
            && var (s2, moved) := MoveTask(s1, t.id, Done);
            && moved == Some(t.(status := Done))
            && GetTaskCount(s2, Backlog) == 0 && GetTaskCount(s2, Done) == 1
            && var (s3, deleted) := DeleteTask(s2, t.id);
            && deleted && |AllTasks(s3)| == 0
  {
    var (s1, t) := AddTask(Initial, NewTask("A", "d", Backlog));
    assert s1.tasks == [t];
    var (s2, moved) := MoveTask(s1, t.id, Done);
    assert s2.tasks == [t.(status := Done)];
    CountSingleton(t, Backlog);
    CountSingleton(t, Done);
    CountSingleton(t.(status := Done), Backlog);
    CountSingleton(t.(status := Done), Done);
  }
}
