/**
 * The records the task store keeps: tasks, the shape given to `addTask`,
 * the partial update given to `updateTask`, and the fixed column list.
 */
module TaskTypes {
  import opened Wrappers

  /** The column identifiers the store configures, in board order. */
  datatype Status = Backlog | Doing | Review | Done

  /**
   * Task identifiers. The store draws them from a counter (see
   * `TaskStore.Store.nextId`) instead of the clock and a random suffix.
   */
  type Id = nat

  datatype Task = Task(id: Id, title: string, description: string, status: Status)

  /** A task without its identifier: what a caller hands to `addTask`. */
  datatype NewTask = NewTask(title: string, description: string, status: Status)

  /**
   * A partial update. `None` means the field is absent from the update
   * object; the identifier is not a field of a patch, so it cannot change.
   */
  datatype Patch = Patch(title: Option<string>, description: Option<string>, status: Option<Status>)

  /** The update `moveTask` performs: the status alone. */
  function StatusPatch(st: Status): Patch {
    Patch(None, None, Some(st))
  }

  /** The column list, in the order the board shows it. */
  const Columns: seq<Status> := [Backlog, Doing, Review, Done]

  /** The task that `addTask` builds from `nt` once it has chosen `id`. */
  function WithId(nt: NewTask, id: Id): Task {
    Task(id, nt.title, nt.description, nt.status)
  }

  /**
   * Spread-merge of a patch over a task: every field the patch carries
   * overwrites, every field it leaves out is kept.
   */
  function ApplyPatch(t: Task, p: Patch): (r: Task)
    ensures r.id == t.id
  {
    Task(t.id, p.title.GetOr(t.title), p.description.GetOr(t.description), p.status.GetOr(t.status))
  }

  /** Merging field by field: a carried field wins, an absent one keeps the task's value. */
  lemma ApplyPatchFields(t: Task, p: Patch)
    ensures ApplyPatch(t, p).id == t.id
    ensures ApplyPatch(t, p).title == (if p.title.Some? then p.title.value else t.title)
    ensures ApplyPatch(t, p).description == (if p.description.Some? then p.description.value else t.description)
    ensures ApplyPatch(t, p).status == (if p.status.Some? then p.status.value else t.status)
  {
  }

  /** Applying the same patch twice changes nothing more than applying it once. */
  lemma ApplyPatchIdempotent(t: Task, p: Patch)
    ensures ApplyPatch(ApplyPatch(t, p), p) == ApplyPatch(t, p)
  {
  }

  /** The empty patch leaves a task as it was. */
  lemma EmptyPatchIsIdentity(t: Task)
    ensures ApplyPatch(t, Patch(None, None, None)) == t
  {
  }

  /** Each of the model's four statuses is exactly one column of the board. */
  lemma ColumnsCoverEveryStatus(st: Status)
    ensures |Columns| == 4
    ensures st in Columns
    ensures forall i, j :: 0 <= i < j < |Columns| ==> Columns[i] != Columns[j]
  {
  }
}
