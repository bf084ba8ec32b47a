# Kanban task store — a Dafny model

This project models the task store of a small client-side Kanban board
(`useTaskStore`). The store holds tasks `{id, title, description, status}` in
an insertion-ordered list and a fixed list of four status columns. It offers
`addTask`, `updateTask` (merge a partial update), `deleteTask`, `moveTask`
(status-only update), `getTaskById`, the per-status views `getTasksByStatus`
and `getTaskCount`, `clearAllTasks` and `initializeSampleData`.

The store is an explicit value `TaskStore.Store(tasks, nextId)` instead of a
module-level singleton. Every operation is a pure function that returns the
next store and the operation's result. The program's reactive views become
functions recomputed from the current store. JavaScript's `undefined` becomes
`Option.None`, and `findIndex`'s -1 does too.

Modules:

- `Wrappers` (`wrappers.dfy`): `Option`.
- `TaskTypes` (`task_types.dfy`): `Status` (the four column ids), `Task`,
  `NewTask`, `Patch` (three optional fields and no id), the column list,
  and the spread-merge `ApplyPatch`.
- `TaskViews` (`task_views.dfy`): first-match lookup (`FindIndex`, `Find`),
  the status filter and count, and the subsequence relation.
- `TaskStore` (`task_store.dfy`): the store and its operations, plus the
  invariant `Valid`: identifiers are pairwise distinct and below the counter.
- `TaskStoreProps` (`task_store_props.dfy`): properties that span several
  operations. These cover lookups after each mutation, count bookkeeping, the
  sample data's distribution, and identifier distinctness across any sequence
  of calls.

Identifiers come from a counter, `nextId`. The program instead builds them
from the clock and a random suffix, which is neither deterministic nor provably
unique. Because `clearAllTasks` does not reset the counter, an identifier is
never handed out twice, as the program intends.

`Status` has the four values the store configures as columns:
backlog, doing, review and done. `src/types/task.ts:1` declares a different
three-value union, but the store and its tests use the four column ids. The
store never checks a status against the column list. The model cannot hold a
status outside the four column ids (see "## Left out").

## Model

| member | source | states |
|---|---|---|
| TaskTypes.ApplyPatch | src/composables/useTaskStore.ts:47 | the merged task keeps the original task's id |
| TaskTypes.ApplyPatchFields | src/composables/useTaskStore.ts:44-47 | merging an update keeps the id; each field the update carries overwrites, each absent one is kept |
| TaskTypes.ApplyPatchIdempotent | src/composables/useTaskStore.ts:47 | applying the same update twice equals applying it once |
| TaskTypes.EmptyPatchIsIdentity | src/composables/useTaskStore.ts:47 | an update that carries no field leaves the task unchanged |
| TaskTypes.ColumnsCoverEveryStatus | src/composables/useTaskStore.ts:7-12 | four columns, pairwise distinct, and every status is one of them |
| TaskViews.FindIndex | src/composables/useTaskStore.ts:45 | returns the first position holding the id, or None exactly when no task has it |
| TaskViews.Find | src/composables/useTaskStore.ts:70 | returns a task from the list with that id, the earliest such one, or None exactly when there is none |
| TaskViews.FindUnique | src/composables/useTaskStore.ts:69-71 | with distinct ids, the lookup returns t exactly when t is in the list and carries the id |
| TaskViews.FilterByStatus | src/composables/useTaskStore.ts:22 | the result holds exactly the tasks of that status, as a subsequence of the list in its original order |
| TaskViews.CountIsMultiplicity | src/composables/useTaskStore.ts:30 | the count of a status equals how many times that status occurs among the tasks' statuses |
| TaskViews.FilterAppend | src/composables/useTaskStore.ts:21-23 | the status view of two appended lists is the two views appended |
| TaskViews.CountsPartition | src/composables/useTaskStore.ts:29-31 | the counts of the model's four statuses add up to the number of tasks |
| TaskStore.InitialValid | src/composables/useTaskStore.ts:5 | the empty starting store satisfies the distinct-id invariant |
| TaskStore.AllTasks | src/composables/useTaskStore.ts:26 | the full list; its length equals the sum of the four per-status counts |
| TaskStore.GetTasksByStatus | src/composables/useTaskStore.ts:21-23 | the view holds exactly the store's tasks of that status, in insertion order |
| TaskStore.GetTaskCount | src/composables/useTaskStore.ts:29-31 | the count equals the length of the status view |
| TaskStore.GetTaskById | src/composables/useTaskStore.ts:69-71 | None exactly when no task has the id, otherwise the first stored task with that id |
| TaskStore.AddTask | src/composables/useTaskStore.ts:34-41 | appends exactly one task at the end, carrying the given title, description and status and an id no stored task has; earlier tasks unchanged; invariant kept |
| TaskStore.UpdateTask | src/composables/useTaskStore.ts:44-51 | absent id: None and an identical store; present id: the task at the first position holding the id becomes the merged task and is returned, and length, counter and every other entry stay the same; ids never change |
| TaskStore.MoveTask | src/composables/useTaskStore.ts:64-66 | same result and state as an update carrying only the status; the returned task has the new status |
| TaskStore.DeleteTask | src/composables/useTaskStore.ts:54-61 | true exactly when the id is present; then the first task with that id is removed, the others keep their order and the length drops by one; otherwise false and no change; invariant kept |
| TaskStore.ClearAllTasks | src/composables/useTaskStore.ts:74-76 | the list becomes empty, every count is zero, the counter is kept, the invariant holds whatever came before |
| TaskStore.AddAll | src/composables/useTaskStore.ts:123 | adding a batch in order keeps the old tasks as a prefix and appends each new task with consecutive fresh ids |
| TaskStore.InitializeSampleData | src/composables/useTaskStore.ts:79-124 | appends the eight sample tasks in order with fresh ids, keeping the earlier tasks and the invariant |
| TaskStoreProps.AddThenLookup | src/composables/useTaskStore.ts:34-41 | after adding, the new id finds the added task and every other lookup is unchanged |
| TaskStoreProps.UpdateThenLookup | src/composables/useTaskStore.ts:44-49 | after updating a present id, the update returned the old task with the patch merged in, the lookup finds that task, and other lookups are unchanged |
| TaskStoreProps.UpdateAbsentIsNoop | src/composables/useTaskStore.ts:50 | updating or moving an absent id returns None and leaves the store identical |
| TaskStoreProps.DeleteThenLookup | src/composables/useTaskStore.ts:54-61 | after deleting, the id is no longer found and every other lookup is unchanged |
| TaskStoreProps.AddCount | src/composables/useTaskStore.ts:39 | adding raises the count of the new task's status by one and no other |
| TaskStoreProps.UpdateCount | src/composables/useTaskStore.ts:47 | an update moves one unit of count from the old task's status to the merged task's status |
| TaskStoreProps.DeleteCount | src/composables/useTaskStore.ts:57 | a delete lowers the count of the removed task's status by one and no other |
| TaskStoreProps.AddAllCount | src/composables/useTaskStore.ts:123 | adding a batch raises each count by the number of batch tasks with that status |
| TaskStoreProps.SampleStatusCounts | src/composables/useTaskStore.ts:80-121 | the sample list has two backlog, one doing, two review and three done tasks |
| TaskStoreProps.SampleDataCounts | src/composables/useTaskStore.ts:79-124 | seeding adds eight tasks: backlog +2, doing +1, review +2, done +3 |
| TaskStoreProps.ClearEmptiesEveryView | src/composables/useTaskStore.ts:74-76 | after clearing, the full list and every status view are empty and every count is zero |
| TaskStoreProps.RunPreservesValid | src/composables/useTaskStore.ts:34-76 | any sequence of adds, updates, moves, deletes, clears and seedings keeps ids pairwise distinct |
| TaskStoreProps.ReachableStoresHaveDistinctIds | src/composables/useTaskStore.ts:5 | every store reachable from the empty one has pairwise distinct ids |
| TaskStoreProps.AddMoveDeleteScenario | src/composables/useTaskStore.ts:34-66 | add to an empty store, then move to done, then delete: the counts go (1,0) → (0,1) and the list ends empty |

## Left out

- Vue reactivity (`ref`, `computed`, `readonly`) and the module-level singleton shared by every `useTaskStore()` call: the views are recomputed from an explicit store value, so there is no stale view and no handle to share.
- Id generation from `Date.now()` and `Math.random()` (`src/composables/useTaskStore.ts:16-18`): it is nondeterministic. A counter takes its place, and ids are natural numbers rather than `task-…` strings.
- Statuses outside the four column ids cannot be represented: `Status` has exactly backlog, doing, review and done. The program accepts any status value in `addTask` and `updateTask` and never checks it against the column list, so a task with another status (for example `todo` or `in-progress` from `src/types/task.ts:1`) would appear in no column view and in no column count. The model's facts that the four counts sum to the list length hold only for its four-valued type.
- Column titles and colours: display-only. The column list is modelled by its ids alone.
- An update object that carries a field whose value is `undefined` overwrites that field with `undefined` in the program. The model's `None` means only that the field is absent, because the declared types give `undefined` no meaning as a title, description or status.
- An update object that carries an `id` at run time: the declared type excludes it, so a patch has no id field.
- `src/composables/useToast.ts`: a notification toggle with a timeout, not part of the store.
- `src/utils/constants.ts` and `src/utils/sampleData.ts`: copies of the column list and seed list that the store defines inline, which is what is modelled.
