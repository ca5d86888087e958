/** The grouped view shared by the active and the completed task pages: a
    map from a list id, or the sentinel `NoList`, to the tasks of that list
    in fetch order. Both pages group a fetch result the same way, and the
    active page removes tasks bucket by bucket. */
module Buckets {
  import opened Domain

  type TaskMap = map<string, seq<Task>>

  // ---------------------------------------------------------------------
  // Grouping

  /** The tasks of `ts` whose bucket key is `k`, in their order in `ts`. */
  function BucketOf(ts: seq<Task>, k: string): seq<Task>
  {
    if ts == [] then []
    else if BucketKey(ts[|ts| - 1]) == k then BucketOf(ts[..|ts| - 1], k) + [ts[|ts| - 1]]
    else BucketOf(ts[..|ts| - 1], k)
  }

  /** The bucket keys that occur in `ts`. */
  function KeysOf(ts: seq<Task>): set<string> {
    set t | t in ts :: BucketKey(t)
  }

  /** Reference definition of the grouping: one bucket per key that occurs
      in `ts`, holding exactly the tasks with that key, in fetch order. */
  function Grouped(ts: seq<Task>): TaskMap {
    map k | k in KeysOf(ts) :: BucketOf(ts, k)
  }

  /** One push: create the task's bucket when it is missing, then append
      the task at its end. This is both a step of the grouping loop and
      the realtime task-insert update. */
  function AppendToBucket(m: TaskMap, t: Task): TaskMap {
    var lid := BucketKey(t);
    m[lid := (if lid in m then m[lid] else []) + [t]]
  }

  /** Every task sits in the bucket its own list id names. */
  ghost predicate WellPlaced(m: TaskMap) {
    forall k, t :: k in m && t in m[k] ==> BucketKey(t) == k
  }

  /** One push adds the task's key if it was missing, leaves every other
      bucket alone, and puts the task at the end of its bucket, after
      everything that was already there. */
  lemma AppendToBucketShape(m: TaskMap, t: Task)
    ensures AppendToBucket(m, t).Keys == m.Keys + {BucketKey(t)}
    ensures forall k :: k in m && k != BucketKey(t) ==> AppendToBucket(m, t)[k] == m[k]
    ensures BucketKey(t) !in m ==> AppendToBucket(m, t)[BucketKey(t)] == [t]
    ensures BucketKey(t) in m ==>
              (var b := AppendToBucket(m, t)[BucketKey(t)];
               |b| == |m[BucketKey(t)]| + 1 && b[..|m[BucketKey(t)]|] == m[BucketKey(t)] && b[|b| - 1] == t)
  {
  }

  lemma {:induction false} BucketOfOutside(ts: seq<Task>, k: string)
    requires k !in KeysOf(ts)
    ensures BucketOf(ts, k) == []
  {
    if ts != [] {
      var init := ts[..|ts| - 1];
      assert KeysOf(init) <= KeysOf(ts) by {
        forall t | t in init ensures t in ts { assert t == ts[IndexIn(init, t)]; }
      }
      assert ts[|ts| - 1] in ts;
      BucketOfOutside(init, k);
    }
  }

  /** An index at which `t` occurs in `s`. */
  function IndexIn(s: seq<Task>, t: Task): (i: nat)
    requires t in s
    ensures i < |s| && s[i] == t
  {
    if s[0] == t then 0 else 1 + IndexIn(s[1..], t)
  }

  lemma KeysOfAppend(ts: seq<Task>, t: Task)
    ensures KeysOf(ts + [t]) == KeysOf(ts) + {BucketKey(t)}
  {
    forall x | x in ts + [t] ensures x in ts || x == t { }
    forall x | x in ts ensures x in ts + [t] { }
  }

  /** Appending one task to the grouped map gives the grouping of the
      longer fetch: a realtime insert agrees with a full re-fetch that
      returns the new task last. */
  lemma {:induction false} AppendRegroups(ts: seq<Task>, t: Task)
    ensures AppendToBucket(Grouped(ts), t) == Grouped(ts + [t])
  {
    var ts' := ts + [t];
    assert ts'[..|ts'| - 1] == ts;
    KeysOfAppend(ts, t);
    var lid := BucketKey(t);
    if lid !in KeysOf(ts) {
      BucketOfOutside(ts, lid);
    }
    var l, r := AppendToBucket(Grouped(ts), t), Grouped(ts');
    assert l.Keys == r.Keys;
    forall k | k in l ensures l[k] == r[k] { }
  }

  /** The grouping loop of the two fetch functions: for each fetched task,
      create its bucket when it is missing and push the task onto it. */
  method GroupTasks(ts: seq<Task>) returns (grouped: TaskMap)
    ensures grouped == Grouped(ts)
  {
    grouped := map[];
    var i := 0;
    while i < |ts|
      invariant 0 <= i <= |ts|
      invariant grouped == Grouped(ts[..i])
    {
      var t := ts[i];
      var lid := BucketKey(t);
      if lid !in grouped {
        grouped := grouped[lid := []];
      }
      grouped := grouped[lid := grouped[lid] + [t]];
      AppendRegroups(ts[..i], t);
      assert ts[..i + 1] == ts[..i] + [t];
      i := i + 1;
    }
    assert ts[..i] == ts;
  }

  lemma {:induction false} BucketOfMembership(ts: seq<Task>, k: string, t: Task)
    ensures t in BucketOf(ts, k) <==> t in ts && BucketKey(t) == k
  {
    if ts != [] {
      var init, last := ts[..|ts| - 1], ts[|ts| - 1];
      assert ts == init + [last];
      BucketOfMembership(init, k, t);
    }
  }

  /** Every fetched task lands in the bucket of its list id, and a bucket
      holds nothing else: each task is in exactly one bucket. */
  lemma GroupedPlacesEachTaskOnce(ts: seq<Task>)
    ensures forall t :: t in ts ==> BucketKey(t) in Grouped(ts) && t in Grouped(ts)[BucketKey(t)]
    ensures forall k, t :: k in Grouped(ts) && t in Grouped(ts)[k] ==> t in ts && BucketKey(t) == k
  {
    forall t | t in ts
      ensures BucketKey(t) in Grouped(ts) && t in Grouped(ts)[BucketKey(t)]
    {
      BucketOfMembership(ts, BucketKey(t), t);
    }
    forall k, t | k in Grouped(ts) && t in Grouped(ts)[k]
      ensures t in ts && BucketKey(t) == k
    {
      BucketOfMembership(ts, k, t);
    }
  }

  lemma GroupedIsWellPlaced(ts: seq<Task>)
    ensures WellPlaced(Grouped(ts))
  {
    GroupedPlacesEachTaskOnce(ts);
  }

  /** The grouping never creates an empty bucket. */
  lemma GroupedHasNoEmptyBucket(ts: seq<Task>)
    ensures forall k :: k in Grouped(ts) ==> Grouped(ts)[k] != []
  {
    forall k | k in Grouped(ts) ensures Grouped(ts)[k] != [] {
      var t :| t in ts && BucketKey(t) == k;
      BucketOfMembership(ts, k, t);
    }
  }

  /** Duplicates survive grouping: each task value occurs in its bucket as
      often as in the fetch result. */
  lemma {:induction false} BucketKeepsCopies(ts: seq<Task>, t: Task)
    ensures multiset(BucketOf(ts, BucketKey(t)))[t] == multiset(ts)[t]
  {
    if ts != [] {
      var init, last := ts[..|ts| - 1], ts[|ts| - 1];
      assert ts == init + [last];
      BucketKeepsCopies(init, t);
    }
  }

  // ---------------------------------------------------------------------
  // Counting the grouped tasks

  /** Number of tasks of `ts` whose bucket key is in `ks`. */
  function CountIn(ts: seq<Task>, ks: set<string>): nat {
    if ts == [] then 0
    else CountIn(ts[..|ts| - 1], ks) + (if BucketKey(ts[|ts| - 1]) in ks then 1 else 0)
  }

  /** Total number of tasks in the buckets named by `ks`. */
  ghost function SizeOver(m: TaskMap, ks: set<string>): nat
    requires ks <= m.Keys
    decreases ks
  {
    if ks == {} then 0
    else
      var k :| k in ks;
      |m[k]| + SizeOver(m, ks - {k})
  }

  lemma {:induction false} CountSplit(ts: seq<Task>, ks: set<string>, k: string)
    requires k in ks
    ensures CountIn(ts, ks) == CountIn(ts, {k}) + CountIn(ts, ks - {k})
  {
    if ts != [] {
      CountSplit(ts[..|ts| - 1], ks, k);
    }
  }

  lemma {:induction false} CountNone(ts: seq<Task>)
    ensures CountIn(ts, {}) == 0
  {
    if ts != [] {
      CountNone(ts[..|ts| - 1]);
    }
  }

  lemma {:induction false} BucketSize(ts: seq<Task>, k: string)
    ensures |BucketOf(ts, k)| == CountIn(ts, {k})
  {
    if ts != [] {
      BucketSize(ts[..|ts| - 1], k);
    }
  }

  lemma {:induction false} CountCovering(ts: seq<Task>, ks: set<string>)
    requires KeysOf(ts) <= ks
    ensures CountIn(ts, ks) == |ts|
  {
    if ts != [] {
      var init := ts[..|ts| - 1];
      assert ts == init + [ts[|ts| - 1]];
      KeysOfAppend(init, ts[|ts| - 1]);
      CountCovering(init, ks);
    }
  }

  lemma {:induction false} SizeOverGrouped(ts: seq<Task>, ks: set<string>)
    requires ks <= KeysOf(ts)
    ensures SizeOver(Grouped(ts), ks) == CountIn(ts, ks)
    decreases ks
  {
    var m := Grouped(ts);
    if ks == {} {
      CountNone(ts);
    } else {
      var k :| k in ks && SizeOver(m, ks) == |m[k]| + SizeOver(m, ks - {k});
      SizeOverGrouped(ts, ks - {k});
      BucketSize(ts, k);
      CountSplit(ts, ks, k);
    }
  }

  /** Grouping preserves the number of tasks: the buckets together hold
      as many tasks as the fetch returned. */
  lemma GroupedKeepsCount(ts: seq<Task>)
    ensures SizeOver(Grouped(ts), Grouped(ts).Keys) == |ts|
  {
    assert Grouped(ts).Keys == KeysOf(ts);
    SizeOverGrouped(ts, KeysOf(ts));
    CountCovering(ts, KeysOf(ts));
  }

  // ---------------------------------------------------------------------
  // Removing tasks by id

  /** A bucket without the tasks whose ids are listed, order kept. */
  function WithoutIds(s: seq<Task>, ids: seq<string>): (r: seq<Task>)
    ensures |r| <= |s|
    ensures forall t :: t in r ==> t in s && t.id !in ids
  {
    if s == [] then []
    else if s[|s| - 1].id in ids then WithoutIds(s[..|s| - 1], ids)
    else WithoutIds(s[..|s| - 1], ids) + [s[|s| - 1]]
  }

  /** Every bucket filtered, every key kept (empty buckets included). */
  function Pruned(m: TaskMap, ids: seq<string>): TaskMap {
    map k | k in m :: WithoutIds(m[k], ids)
  }

  /** The removal updater of the active page: loop over the keys of the
      previous map and store each bucket without the given ids. */
  method RemoveTasks(prev: TaskMap, ids: seq<string>) returns (next: TaskMap)
    ensures next == Pruned(prev, ids)
  {
    next := map[];
    var todo := prev.Keys;
    while todo != {}
      invariant todo <= prev.Keys
      invariant next.Keys == prev.Keys - todo
      invariant forall k :: k in next ==> next[k] == WithoutIds(prev[k], ids)
      decreases todo
    {
      var k :| k in todo;
      next := next[k := WithoutIds(prev[k], ids)];
      todo := todo - {k};
    }
  }

  /** Removal drops every copy of a task whose id is listed and keeps every
      other task with all its copies. */
  lemma {:induction false} WithoutIdsCopies(s: seq<Task>, ids: seq<string>, t: Task)
    ensures multiset(WithoutIds(s, ids))[t] == if t.id in ids then 0 else multiset(s)[t]
  {
    if s != [] {
      var init := s[..|s| - 1];
      assert s == init + [s[|s| - 1]];
      WithoutIdsCopies(init, ids, t);
    }
  }

  lemma WithoutIdsMembership(s: seq<Task>, ids: seq<string>, t: Task)
    ensures t in WithoutIds(s, ids) <==> t in s && t.id !in ids
  {
    WithoutIdsCopies(s, ids, t);
  }

  /** Removal keeps the relative order: filtering a concatenation is the
      concatenation of the filtered parts. */
  lemma {:induction false} WithoutIdsAppend(a: seq<Task>, b: seq<Task>, ids: seq<string>)
    ensures WithoutIds(a + b, ids) == WithoutIds(a, ids) + WithoutIds(b, ids)
    decreases |b|
  {
    if b != [] {
      var init, last := b[..|b| - 1], b[|b| - 1];
      assert (a + b)[..|a + b| - 1] == a + init;
      assert (a + b)[|a + b| - 1] == last;
      WithoutIdsAppend(a, init, ids);
      if last.id !in ids {
        assert WithoutIds(a, ids) + (WithoutIds(init, ids) + [last]) == (WithoutIds(a, ids) + WithoutIds(init, ids)) + [last];
      }
    } else {
      assert a + b == a;
    }
  }

  /** A bucket without any listed id is left exactly as it was. */
  lemma {:induction false} WithoutIdsUntouched(s: seq<Task>, ids: seq<string>)
    requires forall t :: t in s ==> t.id !in ids
    ensures WithoutIds(s, ids) == s
  {
    if s != [] {
      var init := s[..|s| - 1];
      assert s == init + [s[|s| - 1]];
      forall t | t in init ensures t in s { assert t == s[IndexIn(init, t)]; }
      WithoutIdsUntouched(init, ids);
    }
  }

  /** Removing the same ids twice is the same as removing them once. */
  lemma PrunedIdempotent(m: TaskMap, ids: seq<string>)
    ensures Pruned(Pruned(m, ids), ids) == Pruned(m, ids)
  {
    forall k | k in m ensures WithoutIds(WithoutIds(m[k], ids), ids) == WithoutIds(m[k], ids) {
      forall t | t in WithoutIds(m[k], ids) ensures t.id !in ids {
        WithoutIdsMembership(m[k], ids, t);
      }
      WithoutIdsUntouched(WithoutIds(m[k], ids), ids);
    }
  }

  /** Removal keeps every key and, within each bucket, exactly the tasks
      whose ids are not listed. */
  lemma PrunedRemovesExactly(m: TaskMap, ids: seq<string>)
    ensures Pruned(m, ids).Keys == m.Keys
    ensures forall k, t :: k in m ==> (t in Pruned(m, ids)[k] <==> t in m[k] && t.id !in ids)
  {
    forall k, t | k in m ensures t in Pruned(m, ids)[k] <==> t in m[k] && t.id !in ids {
      WithoutIdsMembership(m[k], ids, t);
    }
  }

  lemma PrunedKeepsWellPlaced(m: TaskMap, ids: seq<string>)
    requires WellPlaced(m)
    ensures WellPlaced(Pruned(m, ids))
  {
    PrunedRemovesExactly(m, ids);
  }

  lemma AppendKeepsWellPlaced(m: TaskMap, t: Task)
    requires WellPlaced(m)
    ensures WellPlaced(AppendToBucket(m, t))
  {
  }

  /** Removing ids from a grouped fetch agrees, bucket by bucket, with
      grouping the fetch without those tasks; the difference is that a
      bucket emptied by the removal is kept. */
  lemma {:induction false} PrunedBucketRegroups(ts: seq<Task>, ids: seq<string>, k: string)
    ensures WithoutIds(BucketOf(ts, k), ids) == BucketOf(WithoutIds(ts, ids), k)
  {
    if ts != [] {
      var init, last := ts[..|ts| - 1], ts[|ts| - 1];
      PrunedBucketRegroups(init, ids, k);
      var w := WithoutIds(init, ids);
      assert (w + [last])[..|w + [last]| - 1] == w;
      if BucketKey(last) == k {
        WithoutIdsAppend(BucketOf(init, k), [last], ids);
        assert [last][..0] == [];
      }
    }
  }

  lemma PrunedGroupedRegroups(ts: seq<Task>, ids: seq<string>)
    ensures Grouped(WithoutIds(ts, ids)).Keys <= Pruned(Grouped(ts), ids).Keys
    ensures forall k :: k in Grouped(ts) ==> Pruned(Grouped(ts), ids)[k] == BucketOf(WithoutIds(ts, ids), k)
  {
    forall t | t in WithoutIds(ts, ids) ensures BucketKey(t) in KeysOf(ts) {
      WithoutIdsMembership(ts, ids, t);
    }
    forall k | k in Grouped(ts) ensures Pruned(Grouped(ts), ids)[k] == BucketOf(WithoutIds(ts, ids), k) {
      PrunedBucketRegroups(ts, ids, k);
    }
  }
}
