/**
 * The task records of the planner and the pure effect of each list
 * operation: adding from the entry form, toggling, editing, deleting, and
 * the timer's "mark the linked task done". `TaskStore` applies these to its
 * list in place.
 */
module Tasks {
  import opened Wrappers
  import Text
  import Seqs

  /** A calendar date (`YYYY-MM-DD` in the source) as a day number; later days are larger. */
  type Day = int

  datatype Task = Task(
    id: string,
    title: string,
    desc: string,
    date: Option<Day>,
    priority: string,
    tag: Option<string>,
    done: bool,
    created: int)

  /** What the entry form holds when "Add" is pressed; an empty date field is `None`. */
  datatype Draft = Draft(title: string, desc: string, date: Option<Day>, priority: string, tag: string)

  /** No task in `ts` carries `id`. */
  predicate IdUnused(ts: seq<Task>, id: string) {
    forall j :: 0 <= j < |ts| ==> ts[j].id != id
  }

  predicate UniqueIds(ts: seq<Task>) {
    forall i, j :: 0 <= i < j < |ts| ==> ts[i].id != ts[j].id
  }

  predicate TitlesNonEmpty(ts: seq<Task>) {
    forall j :: 0 <= j < |ts| ==> ts[j].title != []
  }

  /** Whether a selected id counts as linked: JavaScript treats `null` and the empty string as false. */
  predicate IsLinked(selected: Option<string>)
    ensures IsLinked(selected) <==> selected !in {None, Some("")}
  {
    selected.Some? && selected.value != []
  }

  /** The position of the first task with `id`, which is the task `tasks.find(x => x.id === id)` returns. */
  function FindIndex(ts: seq<Task>, id: string): (r: Option<nat>)
    ensures r.Some? ==> r.value < |ts| && ts[r.value].id == id && IdUnused(ts[..r.value], id)
    ensures r.None? <==> IdUnused(ts, id)
  {
    if ts == [] then None
    else if ts[0].id == id then Some(0)
    else
      match FindIndex(ts[1..], id)
      case None => None
      case Some(k) => Some(k + 1)
  }

  /** The task `addTask` builds: trimmed title and description, a blank tag becomes `None`, not done. */
  function NewTask(d: Draft, id: string, created: int): (t: Task)
    ensures t.id == id && t.created == created && !t.done
    ensures t.title == Text.Trim(d.title) && t.desc == Text.Trim(d.desc)
    ensures t.date == d.date && t.priority == d.priority
    ensures t.tag.None? <==> Text.AllSpace(d.tag)
    ensures t.tag.Some? ==> t.tag.value == Text.Trim(d.tag) && t.tag.value != []
  {
    var tag := Text.Trim(d.tag);
    Task(id, Text.Trim(d.title), Text.Trim(d.desc), d.date, d.priority,
         if tag == [] then None else Some(tag), false, created)
  }

  /** The list after `addTask`: unchanged for a blank title, otherwise the new task appended at the end. */
  function Added(ts: seq<Task>, d: Draft, id: string, created: int): (r: seq<Task>)
    ensures Text.AllSpace(d.title) ==> r == ts
    ensures !Text.AllSpace(d.title) ==>
      |r| == |ts| + 1 && r[..|ts|] == ts && r[|ts|] == NewTask(d, id, created) && r[|ts|].title != []
  {
    if Text.Trim(d.title) == [] then ts else ts + [NewTask(d, id, created)]
  }

  /** The list after `toggleDone(id)`: only the first task with `id` changes, and only its `done` flag. */
  function Toggled(ts: seq<Task>, id: string): (r: seq<Task>)
    ensures |r| == |ts|
    ensures forall j :: 0 <= j < |ts| ==> r[j].(done := ts[j].done) == ts[j]
    ensures forall j :: 0 <= j < |ts| ==> (r[j].done != ts[j].done <==> FindIndex(ts, id) == Some(j))
  {
    match FindIndex(ts, id)
    case None => ts
    case Some(i) => ts[i := ts[i].(done := !ts[i].done)]
  }

  /**
   * The list after the first prompt of `editTask` answered with `answer`:
   * the first task with `id` takes the trimmed answer as its title, unless
   * that is empty, in which case it keeps its title; nothing else changes.
   */
  function Retitled(ts: seq<Task>, id: string, answer: string): (r: seq<Task>)
    ensures |r| == |ts|
    ensures forall j :: 0 <= j < |ts| ==> r[j].(title := ts[j].title) == ts[j]
    ensures forall j :: 0 <= j < |ts| ==>
      r[j].title == if FindIndex(ts, id) == Some(j) && !Text.AllSpace(answer) then Text.Trim(answer) else ts[j].title
  {
    match FindIndex(ts, id)
    case None => ts
    case Some(i) =>
      var a := Text.Trim(answer);
      ts[i := ts[i].(title := if a == [] then ts[i].title else a)]
  }

  /** The list after the second prompt of `editTask`: the first task with `id` takes the trimmed answer as its description. */
  function Redescribed(ts: seq<Task>, id: string, answer: string): (r: seq<Task>)
    ensures |r| == |ts|
    ensures forall j :: 0 <= j < |ts| ==> r[j].(desc := ts[j].desc) == ts[j]
    ensures forall j :: 0 <= j < |ts| ==>
      r[j].desc == if FindIndex(ts, id) == Some(j) then Text.Trim(answer) else ts[j].desc
  {
    match FindIndex(ts, id)
    case None => ts
    case Some(i) => ts[i := ts[i].(desc := Text.Trim(answer))]
  }

  /** The list after the timer completes a work phase linked to `id`: the first task with `id` is done. */
  function MarkedDone(ts: seq<Task>, id: string): (r: seq<Task>)
    ensures |r| == |ts|
    ensures forall j :: 0 <= j < |ts| ==> r[j].(done := ts[j].done) == ts[j]
    ensures forall j :: 0 <= j < |ts| ==> r[j].done == (ts[j].done || FindIndex(ts, id) == Some(j))
  {
    match FindIndex(ts, id)
    case None => ts
    case Some(i) => ts[i := ts[i].(done := true)]
  }

  function OtherId(id: string): Task -> bool {
    (t: Task) => t.id != id
  }

  function SameId(id: string): Task -> bool {
    (t: Task) => t.id == id
  }

  /**
   * The list after `deleteTask(id)`: every task with `id` is gone, every
   * other task stays, and an unknown id leaves the list as it was.
   */
  function Removed(ts: seq<Task>, id: string): (r: seq<Task>)
    ensures forall t :: t in r ==> t in ts && t.id != id
    ensures forall t :: t in ts && t.id != id ==> t in r
    ensures IdUnused(r, id)
    ensures IdUnused(ts, id) ==> r == ts
    ensures !IdUnused(ts, id) ==> |r| < |ts|
    ensures |r| == |ts| - |Seqs.Filter(ts, SameId(id))|
  {
    var r := Seqs.Filter(ts, OtherId(id));
    Seqs.FilterSplit(ts, _ => true, OtherId(id), SameId(id));
    Seqs.FilterAll(ts, _ => true);
    if IdUnused(ts, id) then
      Seqs.FilterAll(ts, OtherId(id));
      r
    else
      var i := FindIndex(ts, id).value;
      Seqs.FilterShrinks(ts, OtherId(id), ts[i]);
      r
  }

  /** Deletion keeps the surviving tasks in their relative order. */
  lemma RemovedKeepsOrder(ts: seq<Task>, id: string)
    ensures Seqs.IsSubsequence(Removed(ts, id), ts)
  {
    Seqs.FilterIsSubsequence(ts, OtherId(id));
  }

  /** Toggling the same id twice restores the list. */
  lemma {:induction false} ToggleTwice(ts: seq<Task>, id: string)
    ensures Toggled(Toggled(ts, id), id) == ts
  {
    var once := Toggled(ts, id);
    assert FindIndex(once, id) == FindIndex(ts, id) by {
      SameIdsSameFind(ts, once, id);
    }
  }

  /** Two lists with the same ids in the same places find the same first index. */
  lemma SameIdsSameFind(a: seq<Task>, b: seq<Task>, id: string)
    requires |a| == |b| && forall j :: 0 <= j < |a| ==> a[j].id == b[j].id
    ensures FindIndex(a, id) == FindIndex(b, id)
  {
  }

  /** A fresh id keeps ids unique, and every operation that updates in place or deletes keeps them unique. */
  lemma IdsStayUnique(ts: seq<Task>, d: Draft, id: string, created: int, other: string, answer: string)
    requires UniqueIds(ts)
    ensures IdUnused(ts, id) ==> UniqueIds(Added(ts, d, id, created))
    ensures UniqueIds(Toggled(ts, other)) && UniqueIds(MarkedDone(ts, other))
    ensures UniqueIds(Retitled(ts, other, answer)) && UniqueIds(Redescribed(ts, other, answer))
    ensures UniqueIds(Removed(ts, other))
  {
    RemovedKeepsUnique(ts, other);
  }

  lemma {:induction false} RemovedKeepsUnique(ts: seq<Task>, id: string)
    requires UniqueIds(ts)
    ensures UniqueIds(Removed(ts, id))
  {
    if ts != [] {
      RemovedKeepsUnique(ts[1..], id);
      var rest := Removed(ts[1..], id);
      assert Removed(ts, id) == (if ts[0].id != id then [ts[0]] else []) + rest;
      forall t | t in rest ensures t.id != ts[0].id {
        var k :| 0 <= k < |ts[1..]| && ts[1..][k] == t;
        assert ts[k + 1] == t;
      }
    }
  }

  /** Titles are never empty once set: adding, editing, toggling and deleting all keep that. */
  lemma TitlesStayNonEmpty(ts: seq<Task>, d: Draft, id: string, created: int, other: string, answer: string)
    requires TitlesNonEmpty(ts)
    ensures TitlesNonEmpty(Added(ts, d, id, created))
    ensures TitlesNonEmpty(Retitled(ts, other, answer)) && TitlesNonEmpty(Redescribed(ts, other, answer))
    ensures TitlesNonEmpty(Toggled(ts, other)) && TitlesNonEmpty(MarkedDone(ts, other))
    ensures TitlesNonEmpty(Removed(ts, other))
  {
    var r := Removed(ts, other);
    forall j | 0 <= j < |r| ensures r[j].title != [] {
      assert r[j] in ts;
    }
  }
}
