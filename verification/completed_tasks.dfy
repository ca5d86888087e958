/** The completed-task page: the same grouping of fetched tasks, plus the
    step that finds buckets whose list is not known locally and merges the
    fetched metadata of those lists into `lists` without repeating a list
    that was already there. */
module CompletedTasks {
  import opened Domain
  import opened Buckets

  // ---------------------------------------------------------------------
  // Lists known for the bucket keys

  /** The first list with that id, if any. */
  function FindList(lists: seq<TaskList>, id: string): (r: Option<TaskList>)
    ensures r.None? <==> forall i :: 0 <= i < |lists| ==> lists[i].id != id
    ensures r.Some? ==> exists i :: 0 <= i < |lists| && lists[i] == r.value && r.value.id == id &&
                                    forall j :: 0 <= j < i ==> lists[j].id != id
  {
    if lists == [] then None
    else if lists[0].id == id then Some(lists[0])
    else
      var r := FindList(lists[1..], id);
      assert forall i :: 1 <= i < |lists| ==> lists[i] == lists[1..][i - 1];
      r
  }

  /** The bucket keys, other than the no-list key, that no entry of `lists`
      describes: the ids whose metadata the page asks for. */
  function MissingListIds(tasksByList: TaskMap, lists: seq<TaskList>): (r: set<string>)
    ensures forall id :: id in r <==>
              id in tasksByList && id != NoList && forall i :: 0 <= i < |lists| ==> lists[i].id != id
  {
    set lid | lid in tasksByList && lid != NoList && FindList(lists, lid).None?
  }

  /** The ids of the given lists. */
  function IdsOf(lists: seq<TaskList>): (r: set<string>)
    ensures forall id :: id in r <==> exists i :: 0 <= i < |lists| && lists[i].id == id
  {
    set l | l in lists :: l.id
  }

  /** The fetched lists whose ids are not in `existing`, in fetched order.
      `existing` is computed once, before the loop, so two fetched lists
      with the same new id are both kept. */
  function NewLists(existing: set<string>, fetched: seq<TaskList>): (r: seq<TaskList>)
    ensures forall l :: l in r <==> l in fetched && l.id !in existing
    ensures |r| <= |fetched|
  {
    if fetched == [] then []
    else
      var init, last := fetched[..|fetched| - 1], fetched[|fetched| - 1];
      assert fetched == init + [last];
      if last.id in existing then NewLists(existing, init) else NewLists(existing, init) + [last]
  }

  /** Reference definition of the merge: the previous lists, then the
      fetched lists whose ids were not already present. */
  function Merged(prev: seq<TaskList>, fetched: seq<TaskList>): (r: seq<TaskList>)
    ensures |r| >= |prev| && r[..|prev|] == prev
    ensures forall i :: |prev| <= i < |r| ==> r[i] in fetched && r[i].id !in IdsOf(prev)
    ensures forall l :: l in fetched && l.id !in IdsOf(prev) ==> l in r
    ensures fetched == [] ==> r == prev
  {
    var added := NewLists(IdsOf(prev), fetched);
    var r := prev + added;
    assert forall i :: |prev| <= i < |r| ==> r[i] == added[i - |prev|];
    r
  }

  /** The list updater: copy the previous lists and push every fetched list
      whose id was not present before. */
  method MergeLists(prev: seq<TaskList>, fetched: seq<TaskList>) returns (merged: seq<TaskList>)
    ensures merged == Merged(prev, fetched)
  {
    var existingIds := IdsOf(prev);
    merged := prev;
    var i := 0;
    while i < |fetched|
      invariant 0 <= i <= |fetched|
      invariant merged == prev + NewLists(existingIds, fetched[..i])
    {
      var f := fetched[i];
      NewListsStep(existingIds, fetched, i);
      if f.id !in existingIds {
        merged := merged + [f];
      }
      i := i + 1;
    }
    assert fetched[..i] == fetched;
  }

  lemma NewListsStep(existing: set<string>, fetched: seq<TaskList>, i: nat)
    requires i < |fetched|
    ensures NewLists(existing, fetched[..i + 1]) ==
              NewLists(existing, fetched[..i]) + (if fetched[i].id in existing then [] else [fetched[i]])
  {
    var done := fetched[..i + 1];
    assert done[..|done| - 1] == fetched[..i] && done[|done| - 1] == fetched[i];
  }

  /** The merge keeps the fetched order: merging a concatenation appends
      the new lists of each part in turn. */
  lemma {:induction false} NewListsAppend(existing: set<string>, a: seq<TaskList>, b: seq<TaskList>)
    ensures NewLists(existing, a + b) == NewLists(existing, a) + NewLists(existing, b)
    decreases |b|
  {
    if b == [] {
      assert a + b == a;
    } else {
      var init, last := b[..|b| - 1], b[|b| - 1];
      assert (a + b)[..|a + b| - 1] == a + init;
      assert (a + b)[|a + b| - 1] == last;
      NewListsAppend(existing, a, init);
      if last.id !in existing {
        assert NewLists(existing, a) + (NewLists(existing, init) + [last]) ==
               (NewLists(existing, a) + NewLists(existing, init)) + [last];
      }
    }
  }

  predicate UniqueIds(lists: seq<TaskList>) {
    forall i, j :: 0 <= i < j < |lists| ==> lists[i].id != lists[j].id
  }

  lemma {:induction false} NewListsUnique(existing: set<string>, fetched: seq<TaskList>)
    requires UniqueIds(fetched)
    ensures UniqueIds(NewLists(existing, fetched))
  {
    if fetched != [] {
      var init, last := fetched[..|fetched| - 1], fetched[|fetched| - 1];
      assert UniqueIds(init) by {
        forall i, j | 0 <= i < j < |init| ensures init[i].id != init[j].id {
          assert fetched[i].id != fetched[j].id;
        }
      }
      NewListsUnique(existing, init);
      if last.id !in existing {
        var e := NewLists(existing, init);
        forall i, j | 0 <= i < j < |e + [last]| ensures (e + [last])[i].id != (e + [last])[j].id {
          if j == |e| {
            assert e[i] in init;
            var k :| 0 <= k < |init| && init[k] == e[i];
            assert fetched[k].id != fetched[|fetched| - 1].id;
          }
        }
      }
    }
  }

  /** When neither side repeats an id, neither does the merge: a list that
      was already known is never added a second time. */
  lemma MergeKeepsIdsUnique(prev: seq<TaskList>, fetched: seq<TaskList>)
    requires UniqueIds(prev) && UniqueIds(fetched)
    ensures UniqueIds(Merged(prev, fetched))
  {
    var added := NewLists(IdsOf(prev), fetched);
    NewListsUnique(IdsOf(prev), fetched);
    var r := prev + added;
    forall i, j | 0 <= i < j < |r| ensures r[i].id != r[j].id {
      if j >= |prev| && i < |prev| {
        assert r[j] == added[j - |prev|];
        assert r[j] in added;
        assert r[i].id in IdsOf(prev);
      } else if i >= |prev| {
        assert r[i] == added[i - |prev|] && r[j] == added[j - |prev|];
      }
    }
  }

  /** When the metadata fetch returns a row for every missing id, the merge
      closes the gap: afterwards no bucket key is missing. */
  lemma MergeClosesMissing(tasksByList: TaskMap, prev: seq<TaskList>, fetched: seq<TaskList>)
    requires forall id :: id in MissingListIds(tasksByList, prev) ==> exists l :: l in fetched && l.id == id
    ensures MissingListIds(tasksByList, Merged(prev, fetched)) == {}
  {
    var merged := Merged(prev, fetched);
    forall id | id in tasksByList && id != NoList
      ensures exists i :: 0 <= i < |merged| && merged[i].id == id
    {
      if forall i :: 0 <= i < |prev| ==> prev[i].id != id {
        assert id in MissingListIds(tasksByList, prev);
        var l :| l in fetched && l.id == id;
        assert l in merged;
      } else {
        var i :| 0 <= i < |prev| && prev[i].id == id;
        assert merged[i] == prev[i];
      }
    }
  }

  // ---------------------------------------------------------------------
  // The page state

  class CompletedTasksPage {
    var lists: seq<TaskList>
    var tasksByList: TaskMap

    /** Every task is in the bucket of its own list id. */
    ghost predicate Valid()
      reads this
    {
      WellPlaced(tasksByList)
    }

    constructor ()
      ensures Valid()
      ensures lists == [] && tasksByList == map[]
    {
      lists := [];
      tasksByList := map[];
    }

    /** `fetchLists`, as on the active page. */
    method FetchLists(result: Fetch<TaskList>)
      requires Valid()
      modifies this`lists
      ensures Valid()
      ensures lists == if result.Fetched? then result.Rows() else old(lists)
    {
      if result.Fetched? {
        lists := result.Rows();
      }
    }

    /** `fetchCompletedTasks`: without a user id the grouped map is emptied;
        otherwise the fetched completed tasks are grouped by list, and a
        failed select keeps the old map. */
    method FetchCompletedTasks(userId: Option<string>, result: Fetch<Task>)
      requires Valid()
      modifies this`tasksByList
      ensures Valid()
      ensures !Truthy(userId) ==> tasksByList == map[]
      ensures Truthy(userId) && result.FetchError? ==> tasksByList == old(tasksByList)
      ensures Truthy(userId) && result.Fetched? ==> tasksByList == Grouped(result.Rows())
    {
      if !Truthy(userId) {
        tasksByList := map[];
        return;
      }
      if result.Fetched? {
        var grouped := GroupTasks(result.Rows());
        GroupedIsWellPlaced(result.Rows());
        tasksByList := grouped;
      }
    }

    /** The realtime INSERT and UPDATE callbacks of this page (they are the
        same): unless the owner filter drops the event, re-fetch the
        completed tasks for the session user. With no session user that
        empties the view. */
    method OnTaskChange(t: Task, sessionUserId: Option<string>, refetch: Fetch<Task>)
      requires Valid()
      modifies this`tasksByList
      ensures Valid()
      ensures !Accepts(sessionUserId, t.userId) ==> tasksByList == old(tasksByList)
      ensures Accepts(sessionUserId, t.userId) && !Truthy(sessionUserId) ==> tasksByList == map[]
      ensures Accepts(sessionUserId, t.userId) && Truthy(sessionUserId) ==>
                tasksByList == if refetch.Fetched? then Grouped(refetch.Rows()) else old(tasksByList)
    {
      if !Accepts(sessionUserId, t.userId) {
        return;
      }
      FetchCompletedTasks(sessionUserId, refetch);
    }

    /** The effect that runs after `tasksByList` changes: compute the
        missing list ids (`requested`); with none, nothing is fetched and
        nothing changes. Otherwise, when the metadata fetch succeeds with at
        least one row, merge the rows into `lists`; an error or an empty
        result leaves `lists` as it was. */
    method ReconcileMissingLists(result: Fetch<TaskList>) returns (requested: set<string>)
      requires Valid()
      modifies this`lists
      ensures Valid()
      ensures requested == MissingListIds(tasksByList, old(lists))
      ensures requested == {} || result.FetchError? ==> lists == old(lists)
      ensures requested != {} && result.Fetched? ==> lists == Merged(old(lists), result.Rows())
    {
      requested := MissingListIds(tasksByList, lists);
      if requested == {} {
        return;
      }
      if result.FetchError? {
        return;
      }
      var fetched := result.Rows();
      if |fetched| > 0 {
        lists := MergeLists(lists, fetched);
      }
    }
  }
}
