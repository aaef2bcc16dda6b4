/**
 * The read-only projections `render`, `updateFilters` and `updateStats`
 * compute from the task list: the filtered and date-sorted list, the
 * distinct tags offered in the tag filter, and the completion counts.
 */
module Query {
  import opened Wrappers
  import opened Tasks
  import Text
  import Seqs

  /** The status filter: the empty choice, "done" or "pending" (any other value filters nothing). */
  datatype Status = AnyStatus | DoneOnly | PendingOnly

  /** The filter controls as read from the page: the tag choice ("" for all), the status and the raw search text. */
  datatype Criteria = Criteria(tag: string, status: Status, search: string)

  /** The search text as compared: trimmed, then lower-cased. */
  function Needle(search: string): (q: string)
    ensures q == [] <==> Text.AllSpace(search)
  {
    Text.Lower(Text.Trim(search))
  }

  /** Whether `t` survives the filter: every active criterion holds. */
  predicate Matches(t: Task, c: Criteria)
    ensures c.tag == [] && c.status == AnyStatus && Needle(c.search) == [] ==> Matches(t, c)
    ensures Matches(t, c) && c.tag != [] ==> t.tag == Some(c.tag)
    ensures Matches(t, c) && c.status == DoneOnly ==> t.done
    ensures Matches(t, c) && c.status == PendingOnly ==> !t.done
    ensures Matches(t, c) && Needle(c.search) != [] ==>
      Text.Contains(Text.Lower(t.title), Needle(c.search)) || Text.Contains(Text.Lower(t.desc), Needle(c.search))
  {
    var q := Needle(c.search);
    && (c.tag == [] || t.tag == Some(c.tag))
    && (c.status == DoneOnly ==> t.done)
    && (c.status == PendingOnly ==> !t.done)
    && (q == [] || Text.Contains(Text.Lower(t.title), q) || Text.Contains(Text.Lower(t.desc), q))
  }

  function MatchesFn(c: Criteria): Task -> bool {
    t => Matches(t, c)
  }

  /** `tasks.filter(...)`: the matching tasks in list order. */
  function Filtered(ts: seq<Task>, c: Criteria): (r: seq<Task>)
    ensures forall t :: t in r <==> t in ts && Matches(t, c)
  {
    Seqs.Filter(ts, MatchesFn(c))
  }

  /**
   * The sort comparator: two dated tasks by date difference, a dated task
   * before an undated one, and two undated tasks equal.
   */
  function Compare(a: Task, b: Task): (r: int)
    ensures a.date.Some? && b.date.Some? ==>
      (r < 0 <==> a.date.value < b.date.value) && (r == 0 <==> a.date.value == b.date.value)
    ensures a.date.Some? && b.date.None? ==> r < 0
    ensures a.date.None? && b.date.Some? ==> r > 0
    ensures a.date.None? && b.date.None? ==> r == 0
  {
    if a.date.Some? && b.date.Some? then a.date.value - b.date.value
    else if a.date.Some? then -1
    else if b.date.Some? then 1
    else 0
  }

  /** The comparator is consistent, as `Array.prototype.sort` needs: reflexive, antisymmetric and transitive. */
  lemma CompareIsConsistent(a: Task, b: Task, c: Task)
    ensures Compare(a, a) == 0
    ensures Compare(a, b) < 0 <==> Compare(b, a) > 0
    ensures Compare(a, b) <= 0 && Compare(b, c) <= 0 ==> Compare(a, c) <= 0
  {
  }

  /** Every pair of tasks is in comparator order. */
  ghost predicate SortedByDate(s: seq<Task>) {
    forall i, j :: 0 <= i < j < |s| ==> Compare(s[i], s[j]) <= 0
  }

  /** Inserts `x` before the first task that does not come strictly before it. */
  function Insert(x: Task, s: seq<Task>): (r: seq<Task>)
    requires SortedByDate(s)
    ensures SortedByDate(r)
    ensures multiset(r) == multiset(s) + multiset{x}
  {
    if s == [] || Compare(x, s[0]) <= 0 then
      InsertFront(x, s);
      [x] + s
    else
      var tail := Insert(x, s[1..]);
      InsertBehind(x, s, tail);
      [s[0]] + tail
  }

  lemma InsertFront(x: Task, s: seq<Task>)
    requires SortedByDate(s) && (s == [] || Compare(x, s[0]) <= 0)
    ensures SortedByDate([x] + s)
  {
    forall k | 0 <= k < |s| ensures Compare(x, s[k]) <= 0 {
      CompareIsConsistent(x, s[0], s[k]);
    }
    var r := [x] + s;
    forall i, j | 0 <= i < j < |r| ensures Compare(r[i], r[j]) <= 0 {
      if i > 0 {
        assert r[i] == s[i - 1] && r[j] == s[j - 1];
      }
    }
  }

  lemma InsertBehind(x: Task, s: seq<Task>, tail: seq<Task>)
    requires SortedByDate(s) && s != [] && Compare(x, s[0]) > 0
    requires SortedByDate(tail) && multiset(tail) == multiset(s[1..]) + multiset{x}
    ensures SortedByDate([s[0]] + tail)
    ensures multiset([s[0]] + tail) == multiset(s) + multiset{x}
  {
    forall k | 0 <= k < |tail| ensures Compare(s[0], tail[k]) <= 0 {
      assert tail[k] in multiset(tail);
      if tail[k] != x {
        assert tail[k] in multiset(s[1..]);
        var m :| 0 <= m < |s[1..]| && s[1..][m] == tail[k];
        assert s[m + 1] == tail[k];
      }
    }
    var r := [s[0]] + tail;
    forall i, j | 0 <= i < j < |r| ensures Compare(r[i], r[j]) <= 0 {
      if i > 0 {
        assert r[i] == tail[i - 1] && r[j] == tail[j - 1];
      }
    }
    assert s == [s[0]] + s[1..];
  }

  /** The list sorted with the comparator (an insertion sort; it keeps equal tasks in list order). */
  function SortByDate(s: seq<Task>): (r: seq<Task>)
    ensures SortedByDate(r)
    ensures multiset(r) == multiset(s)
  {
    if s == [] then []
    else
      assert s == [s[0]] + s[1..];
      Insert(s[0], SortByDate(s[1..]))
  }

  /** What `render` lists for the given filter controls. */
  function Query(ts: seq<Task>, c: Criteria): (r: seq<Task>)
    ensures multiset(r) == multiset(Filtered(ts, c))
  {
    SortByDate(Filtered(ts, c))
  }

  /**
   * Every listed task is in the store and meets every active criterion:
   * the exact tag, the status, and the search text occurring in the
   * lower-cased title or description; and every such task is listed.
   */
  lemma QueryMembers(ts: seq<Task>, c: Criteria, t: Task)
    ensures t in Query(ts, c) <==>
      && t in ts
      && (c.tag != [] ==> t.tag == Some(c.tag))
      && (c.status == DoneOnly ==> t.done)
      && (c.status == PendingOnly ==> !t.done)
      && (!Text.AllSpace(c.search) ==>
            Text.Contains(Text.Lower(t.title), Needle(c.search)) || Text.Contains(Text.Lower(t.desc), Needle(c.search)))
  {
    assert t in Query(ts, c) <==> t in multiset(Query(ts, c));
    assert t in Filtered(ts, c) <==> t in multiset(Filtered(ts, c));
  }

  /** The listed tasks are the filtered tasks reordered, and the filtered tasks keep the store's order. */
  lemma QueryIsPermutation(ts: seq<Task>, c: Criteria)
    ensures multiset(Query(ts, c)) == multiset(Filtered(ts, c))
    ensures |Query(ts, c)| == |Filtered(ts, c)|
    ensures Seqs.IsSubsequence(Filtered(ts, c), ts)
  {
    assert |Query(ts, c)| == |multiset(Query(ts, c))|;
    Seqs.FilterIsSubsequence(ts, MatchesFn(c));
  }

  /** Dated tasks come first, in non-decreasing date order; undated tasks follow them. */
  lemma QueryOrder(ts: seq<Task>, c: Criteria)
    ensures forall i, j :: 0 <= i < j < |Query(ts, c)| && Query(ts, c)[j].date.Some? ==>
      Query(ts, c)[i].date.Some? && Query(ts, c)[i].date.value <= Query(ts, c)[j].date.value
  {
  }

  /**
   * For any tag and search text, the "done" list and the "pending" list
   * split the list unfiltered by status: together they hold exactly its
   * tasks, the first only done tasks and the second only pending ones.
   */
  lemma StatusPartition(ts: seq<Task>, tag: string, search: string)
    ensures var all, done, pending :=
      Query(ts, Criteria(tag, AnyStatus, search)),
      Query(ts, Criteria(tag, DoneOnly, search)),
      Query(ts, Criteria(tag, PendingOnly, search));
      && multiset(done) + multiset(pending) == multiset(all)
      && (forall t :: t in all ==> t in ts)
      && (forall t :: t in done ==> t.done)
      && (forall t :: t in pending ==> !t.done)
  {
    var cAll, cDone, cPending := Criteria(tag, AnyStatus, search), Criteria(tag, DoneOnly, search), Criteria(tag, PendingOnly, search);
    Seqs.FilterSplit(ts, MatchesFn(cAll), MatchesFn(cDone), MatchesFn(cPending));
    forall t | t in Query(ts, cAll) ensures t in ts {
      QueryMembers(ts, cAll, t);
    }
    forall t | t in Query(ts, cDone) ensures t.done {
      QueryMembers(ts, cDone, t);
    }
    forall t | t in Query(ts, cPending) ensures !t.done {
      QueryMembers(ts, cPending, t);
    }
  }

  /** With unique ids, no id is in both the "done" and the "pending" list, and their ids make up the ids of the whole list. */
  lemma StatusPartitionById(ts: seq<Task>, tag: string, search: string)
    requires UniqueIds(ts)
    ensures var all, done, pending :=
      Query(ts, Criteria(tag, AnyStatus, search)),
      Query(ts, Criteria(tag, DoneOnly, search)),
      Query(ts, Criteria(tag, PendingOnly, search));
      && (forall a, b :: a in done && b in pending ==> a.id != b.id)
      && (set t | t in all :: t.id) == (set t | t in done :: t.id) + (set t | t in pending :: t.id)
  {
    StatusPartition(ts, tag, search);
    SplitIds(ts,
      Query(ts, Criteria(tag, AnyStatus, search)),
      Query(ts, Criteria(tag, DoneOnly, search)),
      Query(ts, Criteria(tag, PendingOnly, search)));
  }

  lemma SplitIds(ts: seq<Task>, all: seq<Task>, done: seq<Task>, pending: seq<Task>)
    requires UniqueIds(ts)
    requires multiset(done) + multiset(pending) == multiset(all)
    requires forall t :: t in all ==> t in ts
    requires forall t :: t in done ==> t.done
    requires forall t :: t in pending ==> !t.done
    ensures forall a, b :: a in done && b in pending ==> a.id != b.id
    ensures (set t | t in all :: t.id) == (set t | t in done :: t.id) + (set t | t in pending :: t.id)
  {
    forall t | t in done || t in pending ensures t in all {
      assert t in multiset(done) || t in multiset(pending);
      assert t in multiset(done) + multiset(pending);
      assert t in multiset(all);
    }
    forall t | t in all ensures t in done || t in pending {
      assert t in multiset(all);
    }
    forall a, b | a in done && b in pending ensures a.id != b.id {
      var i :| 0 <= i < |ts| && ts[i] == a;
      var j :| 0 <= j < |ts| && ts[j] == b;
      assert i != j;
    }
  }

  predicate IsDone(t: Task) {
    t.done
  }

  predicate IsPending(t: Task) {
    !t.done
  }

  /** The counts shown beside the chart. */
  datatype Stats = Stats(total: nat, completed: nat, pending: int)

  /** `updateStats`: the total, the done tasks, and the total minus the done tasks. */
  function StatsOf(ts: seq<Task>): (s: Stats)
    ensures s.total == |ts|
    ensures s.completed == |Seqs.Filter(ts, IsDone)|
    ensures s.pending == |Seqs.Filter(ts, IsPending)| && s.pending >= 0
    ensures s.completed + s.pending == s.total
  {
    var completed := |Seqs.Filter(ts, IsDone)|;
    Seqs.FilterSplit(ts, _ => true, IsDone, IsPending);
    Seqs.FilterAll(ts, _ => true);
    Stats(|ts|, completed, |ts| - completed)
  }

  /** The completed count is the length of the "done" list with no tag and no search. */
  lemma StatsMatchQuery(ts: seq<Task>)
    ensures StatsOf(ts).completed == |Query(ts, Criteria("", DoneOnly, ""))|
    ensures StatsOf(ts).pending == |Query(ts, Criteria("", PendingOnly, ""))|
  {
    Seqs.FilterSamePredicate(ts, IsDone, MatchesFn(Criteria("", DoneOnly, "")));
    Seqs.FilterSamePredicate(ts, IsPending, MatchesFn(Criteria("", PendingOnly, "")));
    QueryIsPermutation(ts, Criteria("", DoneOnly, ""));
    QueryIsPermutation(ts, Criteria("", PendingOnly, ""));
  }

  /** The tag values the filter offers: present and not empty. */
  ghost function UsedTags(ts: seq<Task>): set<string> {
    set t | t in ts && t.tag.Some? && t.tag.value != [] :: t.tag.value
  }

  predicate Distinct(s: seq<string>) {
    forall i, j :: 0 <= i < j < |s| ==> s[i] != s[j]
  }

  /**
   * `Array.from(new Set(tasks.map(t => t.tag).filter(Boolean)))`: the
   * non-empty tags in order of first use, each once.
   */
  function DistinctTags(ts: seq<Task>): (r: seq<string>)
    ensures Distinct(r)
    ensures forall x :: x in r <==> x in UsedTags(ts)
  {
    TagsAfter(ts, [])
  }

  /** The tags of `ts` appended, first use first, to the tags `seen` so far. */
  function TagsAfter(ts: seq<Task>, seen: seq<string>): (r: seq<string>)
    requires Distinct(seen)
    ensures Distinct(r) && |r| >= |seen| && r[..|seen|] == seen
    ensures forall x :: x in r <==> x in seen || x in UsedTags(ts)
  {
    if ts == [] then seen
    else
      var t := ts[0];
      var seen' := if t.tag.Some? && t.tag.value != [] && t.tag.value !in seen then seen + [t.tag.value] else seen;
      var r := TagsAfter(ts[1..], seen');
      assert r[..|seen|] == r[..|seen'|][..|seen|];
      assert forall x :: x in UsedTags(ts) <==> x in UsedTags(ts[1..]) || (t.tag.Some? && t.tag.value != [] && x == t.tag.value) by {
        assert ts == [t] + ts[1..];
      }
      r
  }
}
