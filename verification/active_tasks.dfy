/** The active task page: the lists, the incomplete tasks grouped by list,
    and the selection for bulk completion, with the handlers that change
    them (initial fetches, single completion, selection toggle, bulk
    completion, and the three realtime callbacks). Backend answers are
    parameters. */
module ActiveTasks {
  import opened Domain
  import opened Buckets
  import CompleteRoute

  // ---------------------------------------------------------------------
  // Selection

  /** The selection with every copy of `taskId` dropped, order kept. */
  function Erased(prev: seq<string>, taskId: string): (r: seq<string>)
    ensures taskId !in r
    ensures forall x :: x != taskId ==> (x in r <==> x in prev)
    ensures |r| <= |prev|
  {
    if prev == [] then []
    else if prev[|prev| - 1] == taskId then Erased(prev[..|prev| - 1], taskId)
    else Erased(prev[..|prev| - 1], taskId) + [prev[|prev| - 1]]
  }

  /** The selection updater: drop every copy of a selected id, or append an
      unselected one at the end. */
  function Toggled(prev: seq<string>, taskId: string): (r: seq<string>)
    ensures taskId in r <==> taskId !in prev
    ensures forall x :: x != taskId ==> (x in r <==> x in prev)
    ensures taskId !in prev ==> r == prev + [taskId]
  {
    if taskId in prev then Erased(prev, taskId) else prev + [taskId]
  }

  predicate NoDuplicates(s: seq<string>) {
    forall i, j :: 0 <= i < j < |s| ==> s[i] != s[j]
  }

  lemma {:induction false} ErasedAbsent(prev: seq<string>, taskId: string)
    requires taskId !in prev
    ensures Erased(prev, taskId) == prev
  {
    if prev != [] {
      var init := prev[..|prev| - 1];
      assert prev == init + [prev[|prev| - 1]];
      ErasedAbsent(init, taskId);
    }
  }

  /** Erasing drops every copy of the id and keeps every copy of the others. */
  lemma {:induction false} ErasedCopies(prev: seq<string>, taskId: string, x: string)
    ensures multiset(Erased(prev, taskId))[x] == if x == taskId then 0 else multiset(prev)[x]
  {
    if prev != [] {
      var init := prev[..|prev| - 1];
      assert prev == init + [prev[|prev| - 1]];
      ErasedCopies(init, taskId, x);
    }
  }

  /** Erasing keeps the relative order of the remaining ids: it
      distributes over concatenation. */
  lemma {:induction false} ErasedAppend(a: seq<string>, b: seq<string>, taskId: string)
    ensures Erased(a + b, taskId) == Erased(a, taskId) + Erased(b, taskId)
    decreases |b|
  {
    if b != [] {
      var init, last := b[..|b| - 1], b[|b| - 1];
      assert (a + b)[..|a + b| - 1] == a + init;
      assert (a + b)[|a + b| - 1] == last;
      ErasedAppend(a, init, taskId);
      if last != taskId {
        assert Erased(a, taskId) + (Erased(init, taskId) + [last]) == (Erased(a, taskId) + Erased(init, taskId)) + [last];
      }
    } else {
      assert a + b == a;
    }
  }

  lemma {:induction false} ErasedKeepsNoDuplicates(prev: seq<string>, taskId: string)
    requires NoDuplicates(prev)
    ensures NoDuplicates(Erased(prev, taskId))
  {
    if prev != [] {
      var init, last := prev[..|prev| - 1], prev[|prev| - 1];
      assert NoDuplicates(init) by {
        forall i, j | 0 <= i < j < |init| ensures init[i] != init[j] { assert prev[i] != prev[j]; }
      }
      ErasedKeepsNoDuplicates(init, taskId);
      if last != taskId {
        assert last !in init by {
          forall i | 0 <= i < |init| ensures init[i] != last { assert prev[i] != prev[|prev| - 1]; }
        }
        var e := Erased(init, taskId);
        forall i, j | 0 <= i < j < |e + [last]| ensures (e + [last])[i] != (e + [last])[j] {
          if j == |e| { assert e[i] in e; }
        }
      }
    }
  }

  /** Toggling keeps a duplicate-free selection duplicate-free. */
  lemma ToggleKeepsNoDuplicates(prev: seq<string>, taskId: string)
    requires NoDuplicates(prev)
    ensures NoDuplicates(Toggled(prev, taskId))
  {
    if taskId in prev {
      ErasedKeepsNoDuplicates(prev, taskId);
    }
  }

  /** Toggling an unselected id twice restores the selection exactly;
      toggling a selected id twice keeps the same members (the id moves to
      the end). */
  lemma ToggleTwice(prev: seq<string>, taskId: string)
    ensures taskId !in prev ==> Toggled(Toggled(prev, taskId), taskId) == prev
    ensures forall x :: x in Toggled(Toggled(prev, taskId), taskId) <==> x in prev
  {
    if taskId !in prev {
      ErasedAbsent(prev, taskId);
      assert (prev + [taskId])[..|prev|] == prev;
    }
  }

  // ---------------------------------------------------------------------
  // The bulk-complete reply as the page reads it

  /** The JSON body of a reply; `updated` may be absent. */
  datatype ReplyJson = ReplyJson(updated: Option<seq<string>>)

  /** What the request to the bulk-complete endpoint gave: a rejected promise, or a
      status with a body that is JSON (`Some`) or is not (`None`, which makes
      reading the body throw). */
  datatype BulkReply = FetchRejected(message: string) | Replied(status: int, json: Option<ReplyJson>)

  /** The ids the page removes after a bulk complete, or `None` when the
      handler throws before touching any state (no reply, a status outside
      200-299, or a body that does not parse). */
  function ReconciledIds(reply: BulkReply): (r: Option<seq<string>>)
    ensures r.Some? <==> reply.Replied? && 200 <= reply.status <= 299 && reply.json.Some?
    ensures r.Some? && reply.json.value.updated == None ==> r.value == []
    ensures r.Some? && reply.json.value.updated.Some? ==> r.value == reply.json.value.updated.value
  {
    match reply
    case FetchRejected(_) => None
    case Replied(status, json) =>
      if !(200 <= status <= 299) then None
      else if json.None? then None
      else Some(json.value.updated.GetOr([]))
  }

  /** How a response of the endpoint reaches the page. */
  function ReplyOf(resp: CompleteRoute.Response): BulkReply {
    Replied(resp.status, Some(ReplyJson(if resp.body.UpdatedBody? then Some(resp.body.updated) else None)))
  }

  /** The server decides what is removed: when the endpoint's update
      returns rows, the page removes exactly the ids of those rows, in
      their order, whatever else was selected. */
  lemma ServerDecidesRemoval(selected: seq<string>, env: CompleteRoute.Env, rows: Option<seq<CompleteRoute.Row>>)
    requires |selected| > 0 && CompleteRoute.Configured(env)
    ensures ReconciledIds(ReplyOf(CompleteRoute.Post(CompleteRoute.Parsed(CompleteRoute.IdArray(selected)), env, CompleteRoute.DbData(rows))))
            == Some(CompleteRoute.RowIds(rows.GetOr([])))
  {
  }

  /** Every failure of the endpoint leaves the page's state alone. */
  lemma EndpointFailureChangesNothing(req: CompleteRoute.RequestBody, env: CompleteRoute.Env, db: CompleteRoute.DbOutcome)
    requires CompleteRoute.Post(req, env, db).status != 200
    ensures ReconciledIds(ReplyOf(CompleteRoute.Post(req, env, db))) == None
  {
  }

  /** Selected tasks the server did not report stay; reported ones go. */
  lemma PartialBulkComplete(m: TaskMap, updated: seq<string>, k: string, t: Task)
    requires k in m && t in m[k]
    ensures t.id !in updated ==> t in Pruned(m, updated)[k]
    ensures t.id in updated ==> t !in Pruned(m, updated)[k]
  {
    PrunedRemovesExactly(m, updated);
  }

  // ---------------------------------------------------------------------
  // The page state

  class TasksPage {
    var lists: seq<TaskList>
    var tasksByList: TaskMap
    var selectedTaskIds: seq<string>

    /** Every task is in the bucket of its own list id. */
    ghost predicate Valid()
      reads this
    {
      WellPlaced(tasksByList)
    }

    constructor ()
      ensures Valid()
      ensures lists == [] && tasksByList == map[] && selectedTaskIds == []
    {
      lists := [];
      tasksByList := map[];
      selectedTaskIds := [];
    }

    /** `fetchLists`: replace the lists with the rows, or keep them when the
        select fails. */
    method FetchLists(result: Fetch<TaskList>)
      requires Valid()
      modifies this`lists
      ensures Valid()
      ensures lists == if result.Fetched? then result.Rows() else old(lists)
    {
      if result.Fetched? {
        lists := result.Rows();
      }
    }

    /** `fetchTasks`: without a user id the grouped map is emptied and
        nothing is fetched; otherwise the fetched incomplete tasks are
        grouped by list, and a failed select keeps the old map. */
    method FetchTasks(userId: Option<string>, result: Fetch<Task>)
      requires Valid()
      modifies this`tasksByList
      ensures Valid()
      ensures !Truthy(userId) ==> tasksByList == map[]
      ensures Truthy(userId) && result.FetchError? ==> tasksByList == old(tasksByList)
      ensures Truthy(userId) && result.Fetched? ==> tasksByList == Grouped(result.Rows())
    {
      if !Truthy(userId) {
        tasksByList := map[];
        return;
      }
      if result.Fetched? {
        var grouped := GroupTasks(result.Rows());
        GroupedIsWellPlaced(result.Rows());
        tasksByList := grouped;
      }
    }

    /** The mount sequence: fetch the lists, then the tasks. The two are
        independent, so the lists can change while the task fetch fails. */
    method Mount(userId: Option<string>, listsResult: Fetch<TaskList>, tasksResult: Fetch<Task>)
      requires Valid()
      modifies this`lists, this`tasksByList
      ensures Valid()
      ensures lists == if listsResult.Fetched? then listsResult.Rows() else old(lists)
      ensures !Truthy(userId) ==> tasksByList == map[]
      ensures Truthy(userId) && tasksResult.FetchError? ==> tasksByList == old(tasksByList)
      ensures Truthy(userId) && tasksResult.Fetched? ==> tasksByList == Grouped(tasksResult.Rows())
      ensures selectedTaskIds == old(selectedTaskIds)
    {
      FetchLists(listsResult);
      FetchTasks(userId, tasksResult);
    }

    /** `markTaskCompleted`: after the update succeeds, drop every task with
        that id from every bucket; on an update error change nothing. The
        selection is not touched. */
    method MarkTaskCompleted(taskId: string, updateError: Option<string>)
      requires Valid()
      modifies this`tasksByList
      ensures Valid()
      ensures updateError.None? ==> tasksByList == Pruned(old(tasksByList), [taskId])
      ensures updateError.Some? ==> tasksByList == old(tasksByList)
    {
      if updateError.Some? {
        return;
      }
      tasksByList := RemoveTasks(tasksByList, [taskId]);
      PrunedKeepsWellPlaced(old(tasksByList), [taskId]);
    }

    /** The selection checkbox handler. */
    method ToggleSelectTask(taskId: string)
      requires Valid()
      modifies this`selectedTaskIds
      ensures Valid()
      ensures selectedTaskIds == Toggled(old(selectedTaskIds), taskId)
    {
      if taskId in selectedTaskIds {
        selectedTaskIds := Erased(selectedTaskIds, taskId);
      } else {
        selectedTaskIds := selectedTaskIds + [taskId];
      }
    }

    /** `completeSelectedTasks`: with an empty selection nothing happens and
        no request is sent (`sent == None`). Otherwise the whole selection
        goes out in one request; when the handler does not throw, exactly
        the ids in the reply's `updated` list are removed and the selection
        is cleared, and when it throws both are left as they were. */
    method CompleteSelectedTasks(reply: BulkReply) returns (sent: Option<seq<string>>)
      requires Valid()
      modifies this`tasksByList, this`selectedTaskIds
      ensures Valid()
      ensures sent == if old(selectedTaskIds) == [] then None else Some(old(selectedTaskIds))
      ensures sent.None? || ReconciledIds(reply).None? ==>
                tasksByList == old(tasksByList) && selectedTaskIds == old(selectedTaskIds)
      ensures sent.Some? && ReconciledIds(reply).Some? ==>
                tasksByList == Pruned(old(tasksByList), ReconciledIds(reply).value) && selectedTaskIds == []
    {
      if |selectedTaskIds| == 0 {
        return None;
      }
      sent := Some(selectedTaskIds);
      var ids := ReconciledIds(reply);
      if ids.None? {
        return;
      }
      var next := RemoveTasks(tasksByList, ids.value);
      PrunedKeepsWellPlaced(tasksByList, ids.value);
      tasksByList := next;
      selectedTaskIds := [];
    }

    /** Realtime list INSERT: unless the owner filter drops it, the list is
        put first and its bucket is set to empty, replacing any bucket that
        was already there. */
    method OnListInsert(newList: TaskList, sessionUserId: Option<string>)
      requires Valid()
      modifies this`lists, this`tasksByList
      ensures Valid()
      ensures !Accepts(sessionUserId, newList.userId) ==> lists == old(lists) && tasksByList == old(tasksByList)
      ensures Accepts(sessionUserId, newList.userId) ==>
                lists == [newList] + old(lists) && tasksByList == old(tasksByList)[newList.id := []]
    {
      if !Accepts(sessionUserId, newList.userId) {
        return;
      }
      lists := [newList] + lists;
      tasksByList := tasksByList[newList.id := []];
    }

    /** Realtime task INSERT: unless the owner filter drops it, the task is
        appended to its bucket, which is created when missing. There is no
        duplicate check. */
    method OnTaskInsert(t: Task, sessionUserId: Option<string>)
      requires Valid()
      modifies this`tasksByList
      ensures Valid()
      ensures !Accepts(sessionUserId, t.userId) ==> tasksByList == old(tasksByList)
      ensures Accepts(sessionUserId, t.userId) ==> tasksByList == AppendToBucket(old(tasksByList), t)
      ensures Accepts(sessionUserId, t.userId) ==>
                multiset(tasksByList[BucketKey(t)])[t] ==
                  (if BucketKey(t) in old(tasksByList) then multiset(old(tasksByList)[BucketKey(t)])[t] else 0) + 1
    {
      if !Accepts(sessionUserId, t.userId) {
        return;
      }
      var lid := BucketKey(t);
      var next := tasksByList;
      if lid !in next {
        next := next[lid := []];
      }
      next := next[lid := next[lid] + [t]];
      tasksByList := next;
    }

    /** Realtime task UPDATE: a task reported completed leaves every
        bucket; any other update changes nothing. There is no owner filter
        here, and the selection is not touched. */
    method OnTaskUpdate(t: Task)
      requires Valid()
      modifies this`tasksByList
      ensures Valid()
      ensures t.completed ==> tasksByList == Pruned(old(tasksByList), [t.id])
      ensures !t.completed ==> tasksByList == old(tasksByList)
      ensures t.completed ==> forall k :: k in tasksByList ==> forall x :: x in tasksByList[k] ==> x.id != t.id
    {
      if t.completed {
        var next := RemoveTasks(tasksByList, [t.id]);
        PrunedRemovesExactly(tasksByList, [t.id]);
        tasksByList := next;
      }
    }
  }

  /** A repeated realtime INSERT of the same task leaves two copies in its
      bucket. */
  lemma InsertTwiceKeepsTwoCopies(m: TaskMap, t: Task)
    ensures multiset(AppendToBucket(AppendToBucket(m, t), t)[BucketKey(t)])[t] ==
              (if BucketKey(t) in m then multiset(m[BucketKey(t)])[t] else 0) + 2
  {
  }
}
