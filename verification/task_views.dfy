/**
 * The read side of the store over a plain task list: lookup by identifier
 * (`findIndex` / `find`) and the per-status views (`filter`, `length`).
 */
module TaskViews {
  import opened Wrappers
  import opened TaskTypes

  /** Some task of `ts` carries identifier `id`. */
  predicate HasId(ts: seq<Task>, id: Id) {
    exists i :: 0 <= i < |ts| && ts[i].id == id
  }

  /** No two tasks of `ts` share an identifier. */
  predicate DistinctIds(ts: seq<Task>) {
    forall i, j :: 0 <= i < |ts| && 0 <= j < |ts| && i != j ==> ts[i].id != ts[j].id
  }

  /** The scan of `findIndex`, started at position `from`. */
  function FindIndexFrom(ts: seq<Task>, id: Id, from: nat): (r: Option<nat>)
    requires from <= |ts|
    ensures r.Some? ==> from <= r.value < |ts| && ts[r.value].id == id
    ensures r.Some? ==> forall j :: from <= j < r.value ==> ts[j].id != id
    ensures r.None? ==> forall j :: from <= j < |ts| ==> ts[j].id != id
    decreases |ts| - from
  {
    if from == |ts| then None
    else if ts[from].id == id then Some(from)
    else FindIndexFrom(ts, id, from + 1)
  }

  /**
   * Position of the first task with identifier `id`; `None` stands for
   * the -1 that `findIndex` returns when there is none.
   */
  function FindIndex(ts: seq<Task>, id: Id): (r: Option<nat>)
    ensures r.Some? ==> r.value < |ts| && ts[r.value].id == id
    ensures r.Some? ==> forall j :: 0 <= j < r.value ==> ts[j].id != id
    ensures r.None? <==> !HasId(ts, id)
  {
    FindIndexFrom(ts, id, 0)
  }

  /** The first task with identifier `id`, as `find` returns it. */
  function Find(ts: seq<Task>, id: Id): (r: Option<Task>)
    ensures r.Some? <==> HasId(ts, id)
    ensures r.Some? ==> r.value in ts && r.value.id == id
    ensures r.Some? ==> exists i :: 0 <= i < |ts| && ts[i] == r.value
                                    && forall j :: 0 <= j < i ==> ts[j].id != id
  {
    match FindIndex(ts, id)
    case Some(i) => Some(ts[i])
    case None => None
  }

  /** With distinct identifiers, `Find` returns exactly the task carrying the identifier. */
  lemma FindUnique(ts: seq<Task>, id: Id, t: Task)
    requires DistinctIds(ts)
    ensures Find(ts, id) == Some(t) <==> t in ts && t.id == id
  {
    if t in ts && t.id == id {
      var k :| 0 <= k < |ts| && ts[k] == t;
      var i := FindIndex(ts, id).value;
      assert ts[i].id == ts[k].id;
    }
  }

  /** `a` is `b` with some elements left out and the rest in their original order. */
  predicate IsSubsequence<T(==)>(a: seq<T>, b: seq<T>)
    decreases |b|
  {
    if |a| == 0 then true
    else if |b| == 0 then false
    else if a[0] == b[0] then IsSubsequence(a[1..], b[1..])
    else IsSubsequence(a, b[1..])
  }

  /** The tasks of `ts` whose status is `st`, in list order (`filter`). */
  function FilterByStatus(ts: seq<Task>, st: Status): (r: seq<Task>)
    ensures |r| <= |ts|
    ensures forall i :: 0 <= i < |r| ==> r[i].status == st
    ensures forall t :: t in r <==> t in ts && t.status == st
    ensures IsSubsequence(r, ts)
  {
    if |ts| == 0 then []
    else
      var rest := FilterByStatus(ts[1..], st);
      if ts[0].status == st then
        assert ts == [ts[0]] + ts[1..];
        assert ([ts[0]] + rest)[1..] == rest;
        [ts[0]] + rest
      else
        assert ts == [ts[0]] + ts[1..];
        assert rest != [] ==> rest[0] != ts[0];
        rest
  }

  /** The number of tasks of `ts` with status `st` (`filter(...).length`). */
  function CountByStatus(ts: seq<Task>, st: Status): nat {
    |FilterByStatus(ts, st)|
  }

  /** The statuses of `ts`, position by position. */
  function Statuses(ts: seq<Task>): (r: seq<Status>)
    ensures |r| == |ts|
    ensures forall i :: 0 <= i < |ts| ==> r[i] == ts[i].status
  {
    seq(|ts|, i requires 0 <= i < |ts| => ts[i].status)
  }

  /** The status count is the multiplicity of the status among the list's statuses. */
  lemma {:induction false} CountIsMultiplicity(ts: seq<Task>, st: Status)
    ensures CountByStatus(ts, st) == multiset(Statuses(ts))[st]
    decreases |ts|
  {
    if |ts| > 0 {
      CountIsMultiplicity(ts[1..], st);
      assert Statuses(ts) == [ts[0].status] + Statuses(ts[1..]);
    }
  }

  /** The 0/1 contribution of one task to the count of status `st`. */
  function Indicator(t: Task, st: Status): nat {
    if t.status == st then 1 else 0
  }

  /** Filtering distributes over concatenation: the views of appended tasks are appended. */
  lemma {:induction false} FilterAppend(a: seq<Task>, b: seq<Task>, st: Status)
    ensures FilterByStatus(a + b, st) == FilterByStatus(a, st) + FilterByStatus(b, st)
    decreases |a|
  {
    if |a| == 0 {
      assert a + b == b;
    } else {
      assert (a + b)[1..] == a[1..] + b;
      FilterAppend(a[1..], b, st);
    }
  }

  /** Counting distributes over concatenation. */
  lemma CountAppend(a: seq<Task>, b: seq<Task>, st: Status)
    ensures CountByStatus(a + b, st) == CountByStatus(a, st) + CountByStatus(b, st)
  {
    FilterAppend(a, b, st);
  }

  /** A single task adds one to the count of its own status and nothing to the others. */
  lemma CountSingleton(t: Task, st: Status)
    ensures CountByStatus([t], st) == Indicator(t, st)
  {
    assert [t][1..] == [];
  }

  /** Every task is counted under exactly one status, so the four counts add up to the length. */
  lemma {:induction false} CountsPartition(ts: seq<Task>)
    ensures CountByStatus(ts, Backlog) + CountByStatus(ts, Doing)
            + CountByStatus(ts, Review) + CountByStatus(ts, Done) == |ts|
    decreases |ts|
  {
    if |ts| > 0 {
      CountsPartition(ts[1..]);
    }
  }

  /** Removing one element keeps the rest as a subsequence. */
  lemma {:induction false} RemoveAtIsSubsequence<T>(a: seq<T>, i: nat)
    requires i < |a|
    ensures IsSubsequence(a[..i] + a[i + 1..], a)
    decreases i
  {
    if i == 0 {
      assert a[..0] + a[1..] == a[1..];
      SubsequenceRefl(a[1..]);
      SubsequenceDropFront(a[1..], a);
    } else {
      var rest := a[1..][..i - 1] + a[1..][i..];
      RemoveAtIsSubsequence(a[1..], i - 1);
      assert a[..i] + a[i + 1..] == [a[0]] + rest;
      assert ([a[0]] + rest)[1..] == rest;
    }
  }

  /** Every sequence is a subsequence of itself. */
  lemma {:induction false} SubsequenceRefl<T>(a: seq<T>)
    ensures IsSubsequence(a, a)
    decreases |a|
  {
    if |a| > 0 {
      SubsequenceRefl(a[1..]);
    }
  }

  /** A subsequence of the tail is a subsequence of the whole. */
  lemma {:induction false} SubsequenceDropFront<T>(a: seq<T>, b: seq<T>)
    requires |b| > 0 && IsSubsequence(a, b[1..])
    ensures IsSubsequence(a, b)
    decreases |b|
  {
    if |a| > 0 && a[0] == b[0] {
      // a[0] is matched somewhere in b[1..]; matching it at b[0] instead only leaves more room.
      SubsequenceTail(a, b[1..]);
      SubsequenceDropFront(a[1..], b[1..]);
    }
  }

  /** Dropping the head of a non-empty subsequence keeps it a subsequence. */
  lemma {:induction false} SubsequenceTail<T>(a: seq<T>, b: seq<T>)
    requires |a| > 0 && IsSubsequence(a, b)
    ensures |b| > 0 && IsSubsequence(a[1..], b[1..])
    decreases |b|
  {
    if a[0] == b[0] {
    } else {
      SubsequenceTail(a, b[1..]);
      SubsequenceDropFront(a[1..], b[1..]);
    }
  }
}
