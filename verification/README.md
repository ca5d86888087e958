# Task manager: grouped task store, bulk-complete endpoint and navbar, in Dafny

This project models the client-side logic of a task-management web
application whose storage, authentication and realtime feed live in a hosted
backend. It covers four pieces:

- **The active task page** (`ActiveTasks.TasksPage`, `active_tasks.dfy`). A
  class holds the page's state:
  - `lists`;
  - `tasksByList`, a map from a list id, or the sentinel `"__nolst__"`, to
    that list's incomplete tasks in fetch order;
  - `selectedTaskIds`.

  One method per handler changes this state: the initial fetches,
  single-task completion, the selection toggle, bulk completion, and the
  realtime callbacks for list INSERT, task INSERT and task UPDATE. Backend
  answers are method parameters. The invariant `Valid()` says every task
  sits in the bucket its own list id names, and every handler keeps it.
- **The grouped view** (`Buckets`, `buckets.dfy`), shared by both pages. A
  reference definition `Grouped` gives one bucket per list id that occurs.
  The `forEach`/`push` grouping loop (`GroupTasks`) and the per-key removal
  loop (`RemoveTasks`) are proved against it and against `Pruned`. Lemmas
  cover:
  - placement in exactly one bucket;
  - no empty buckets;
  - the total count and the copies of each task;
  - order;
  - idempotent removal;
  - agreement of a realtime insert, and of a removal, with re-grouping.
- **The completed task page** (`CompletedTasks.CompletedTasksPage`,
  `completed_tasks.dfy`). It has the same grouping, plus two steps:
  - the computation of bucket keys that have no list metadata;
  - the append-if-absent merge of fetched lists, a loop proved against
    `Merged`.
- **The bulk-complete endpoint** (`CompleteRoute.Post`,
  `complete_route.dfy`). It is a pure classifier. Its inputs are the request
  body, the two environment variables, and the outcome of the database
  update. Its output is the status and the JSON body. Lemmas in
  `ActiveTasks` connect it to the page. When the update returns rows, the
  page removes exactly those rows' ids, and every failure of the endpoint
  leaves the page unchanged.
- **The navigation bar** (`Navbar`, `navbar.dfy`). It covers:
  - the pathname default;
  - the first-match-wins page name;
  - link highlighting;
  - the account actions shown for the session and path.

JavaScript truthiness is modelled where the code relies on it. A null,
undefined or empty user id, session id, pathname or environment variable is
falsy (`Domain.Truthy`).

The code has these behaviours, and the model keeps them:

- A realtime task INSERT does not check for duplicates: two deliveries leave
  two copies.
- A list INSERT replaces an existing bucket with an empty one.
- A failed bulk complete keeps the selection.
- Lists and tasks are fetched independently, so the lists can change while
  the task fetch fails.
- The selection is not purged when a task leaves the view by a single
  completion or a realtime UPDATE.
- A task un-completed by a realtime UPDATE is not re-inserted.

## Model

| member | source | states |
|---|---|---|
| Buckets.GroupTasks | app/tasks/page.tsx:60-66 | the push loop builds exactly `Grouped(ts)`: one bucket per list id (or `__nolst__`), each holding that key's tasks in fetch order |
| Buckets.GroupedPlacesEachTaskOnce | app/tasks/page.tsx:62-66 | every fetched task is in the bucket of its own key, and a bucket holds only fetched tasks with that key, so each task is in exactly one bucket |
| Buckets.GroupedIsWellPlaced | app/tasks/page.tsx:62-66 | a grouped fetch satisfies the page invariant (each task in its own key's bucket) |
| Buckets.GroupedHasNoEmptyBucket | app/tasks/page.tsx:64-65 | grouping never creates an empty bucket |
| Buckets.BucketKeepsCopies | app/tasks/page.tsx:62-66 | each task occurs in its bucket as often as in the fetch result |
| Buckets.GroupedKeepsCount | app/tasks/page.tsx:60-66 | the buckets together hold exactly as many tasks as were fetched |
| Domain.BucketKey | app/tasks/page.tsx:63 | a task's bucket is its list id, or `__nolst__` when the list id is null or absent |
| Domain.Accepts | app/tasks/page.tsx:161 | without a truthy session user every event passes; with one, exactly the rows owned by that user pass |
| Buckets.AppendToBucketShape | app/tasks/page.tsx:177-182 | one push (`AppendToBucket`) adds the task's key if missing, leaves every other bucket unchanged, and puts the task at the end of its bucket after the tasks already there |
| Buckets.WithoutIds | app/tasks/page.tsx:86 | the filtered bucket is no longer than the bucket and holds only tasks of the bucket whose ids are not listed; `WithoutIdsCopies` and `WithoutIdsAppend` give copies and order |
| Buckets.AppendRegroups | app/tasks/page.tsx:177-182 | appending a task to its bucket (creating it if missing) equals grouping the fetch with that task appended |
| Buckets.RemoveTasks | app/tasks/page.tsx:124-130 | the loop over the previous keys yields `Pruned(prev, ids)`: every key kept, each bucket filtered |
| Buckets.WithoutIdsCopies | app/tasks/page.tsx:86 | removal drops every copy of a task with a listed id and keeps every other task with all its copies |
| Buckets.WithoutIdsMembership | app/tasks/page.tsx:86 | a task survives removal exactly when it was there and its id is not listed |
| Buckets.WithoutIdsAppend | app/tasks/page.tsx:127 | removal keeps relative order: it distributes over concatenation |
| Buckets.WithoutIdsUntouched | app/tasks/page.tsx:127 | a bucket with none of the listed ids is left exactly as it was |
| Buckets.PrunedIdempotent | app/tasks/page.tsx:83-89 | removing the same ids twice equals removing them once |
| Buckets.PrunedRemovesExactly | app/tasks/page.tsx:124-130 | removal keeps the key set and keeps in each bucket exactly the tasks whose ids are not listed |
| Buckets.PrunedKeepsWellPlaced | app/tasks/page.tsx:193-199 | removal preserves the page invariant |
| Buckets.PrunedBucketRegroups | app/tasks/page.tsx:83-89 | filtering a grouped bucket equals grouping the filtered fetch, for that key |
| Buckets.PrunedGroupedRegroups | app/tasks/page.tsx:83-89 | removal after grouping agrees bucket by bucket with grouping without the removed tasks; the only difference is that emptied buckets are kept |
| ActiveTasks.Erased | app/tasks/page.tsx:97 | the result lacks the id, keeps exactly the other ids as members, and is no longer than the selection |
| ActiveTasks.ErasedCopies | app/tasks/page.tsx:97 | every copy of the id is dropped and every other id keeps all of its copies |
| ActiveTasks.ErasedAppend | app/tasks/page.tsx:97 | the remaining ids keep their relative order: erasing distributes over concatenation |
| ActiveTasks.Toggled | app/tasks/page.tsx:95-100 | membership of the id flips, others are unaffected, and an absent id is appended at the end |
| ActiveTasks.ToggleKeepsNoDuplicates | app/tasks/page.tsx:95-100 | a duplicate-free selection stays duplicate-free |
| ActiveTasks.ToggleTwice | app/tasks/page.tsx:95-100 | toggling an unselected id twice restores the selection exactly; toggling any id twice keeps the same members |
| ActiveTasks.ReconciledIds | app/tasks/page.tsx:114-121 | ids are removed only for a 2xx reply with a JSON body, and they are the reply's `updated` list, or `[]` when it is absent |
| ActiveTasks.ServerDecidesRemoval | app/api/tasks/complete/route.ts:21-31 | when the endpoint's update returns rows, the page removes exactly those rows' ids, in order |
| ActiveTasks.EndpointFailureChangesNothing | app/tasks/page.tsx:114-118 | every non-200 answer of the endpoint makes the handler throw before touching state |
| ActiveTasks.PartialBulkComplete | app/tasks/page.tsx:124-130 | a task whose id the server did not return stays in its bucket, and one whose id it returned is gone |
| ActiveTasks.InsertTwiceKeepsTwoCopies | app/tasks/page.tsx:178-183 | two deliveries of the same insert add two copies to the bucket |
| ActiveTasks.TasksPage.constructor | app/tasks/page.tsx:23-27 | the page starts with no lists, an empty map and an empty selection |
| ActiveTasks.TasksPage.FetchLists | app/tasks/page.tsx:30-43 | a successful select replaces the lists (null data reads as `[]`); an error keeps them |
| ActiveTasks.TasksPage.FetchTasks | app/tasks/page.tsx:45-71 | with no user id the map becomes empty; otherwise a successful fetch sets it to `Grouped` of the rows, and an error keeps it |
| ActiveTasks.TasksPage.Mount | app/tasks/page.tsx:142-151 | lists then tasks are fetched independently; the selection is not touched |
| ActiveTasks.TasksPage.MarkTaskCompleted | app/tasks/page.tsx:75-93 | after a successful update every task with that id leaves every bucket; an update error changes nothing |
| ActiveTasks.TasksPage.ToggleSelectTask | app/tasks/page.tsx:95-100 | the selection becomes `Toggled` of the old one |
| ActiveTasks.TasksPage.CompleteSelectedTasks | app/tasks/page.tsx:102-140 | an empty selection sends nothing and changes nothing. Otherwise the whole selection goes in one request. On an accepted reply exactly its `updated` ids are removed (keys kept) and the selection is cleared. On any failure both stay as they were |
| ActiveTasks.TasksPage.OnListInsert | app/tasks/page.tsx:158-164 | unless the owner filter drops it, the list is prepended and its bucket is set to `[]`, replacing any existing bucket |
| ActiveTasks.TasksPage.OnTaskInsert | app/tasks/page.tsx:173-184 | unless the owner filter drops it, the task is appended to its bucket (created if missing), with no duplicate check |
| ActiveTasks.TasksPage.OnTaskUpdate | app/tasks/page.tsx:189-201 | a completed task's id leaves every bucket; other updates change nothing; there is no owner filter |
| CompletedTasks.FindList | app/tasks/completed/page.tsx:120 | returns the first list with the id, and returns nothing exactly when no list has it |
| CompletedTasks.MissingListIds | app/tasks/completed/page.tsx:120 | exactly the bucket keys other than `__nolst__` that no entry of `lists` has as id |
| CompletedTasks.IdsOf | app/tasks/completed/page.tsx:131 | exactly the ids occurring in the lists |
| CompletedTasks.NewLists | app/tasks/completed/page.tsx:133-135 | exactly the fetched lists whose ids were not present before |
| CompletedTasks.Merged | app/tasks/completed/page.tsx:129-137 | the previous lists are an unchanged prefix. Every appended list was fetched and has an id absent before. Every fetched list with a new id is appended. An empty fetch changes nothing |
| CompletedTasks.MergeLists | app/tasks/completed/page.tsx:131-136 | the push loop yields exactly `Merged(prev, fetched)` |
| CompletedTasks.NewListsAppend | app/tasks/completed/page.tsx:133-135 | appended lists keep the fetched order |
| CompletedTasks.MergeKeepsIdsUnique | app/tasks/completed/page.tsx:131-135 | if neither side repeats an id, neither does the merge |
| CompletedTasks.MergeClosesMissing | app/tasks/completed/page.tsx:119-137 | if the fetch returns a row for every missing id, no key is missing after the merge |
| CompletedTasks.CompletedTasksPage.constructor | app/tasks/completed/page.tsx:23-26 | the page starts with no lists and an empty map |
| CompletedTasks.CompletedTasksPage.FetchLists | app/tasks/completed/page.tsx:28-41 | a successful select replaces the lists; an error keeps them |
| CompletedTasks.CompletedTasksPage.FetchCompletedTasks | app/tasks/completed/page.tsx:43-68 | with no user id the map becomes empty; otherwise a successful fetch sets it to `Grouped` of the rows, and an error keeps it |
| CompletedTasks.CompletedTasksPage.OnTaskChange | app/tasks/completed/page.tsx:84-103 | an event passing the owner filter re-fetches; with no session user this empties the view |
| CompletedTasks.CompletedTasksPage.ReconcileMissingLists | app/tasks/completed/page.tsx:119-143 | the requested ids are the missing ids. With none, nothing is fetched and `lists` is unchanged. Otherwise `lists` becomes `Merged` with the fetched rows, and an error or an empty result keeps it |
| CompleteRoute.RowIds | app/api/tasks/complete/route.ts:31 | same length as the rows, each entry the id of the row at that position |
| CompleteRoute.Post | app/api/tasks/complete/route.ts:4-35 | statuses are only 200, 400 and 500. Missing, non-array or empty ids give 400 "Missing task ids", whatever the configuration. Otherwise a missing URL or key gives 500 with the misconfiguration message. A DB error gives 500 with message and details (null when absent). An exception gives 500 with its message. Success gives 200 with the returned rows' ids (`[]` for null data) |
| CompleteRoute.IdsCheckedBeforeConfig | app/api/tasks/complete/route.ts:8-17 | bad ids give the same 400 whatever the configuration and the database |
| CompleteRoute.ConfigCheckedBeforeDb | app/api/tasks/complete/route.ts:15-29 | a misconfigured server answers independently of the database |
| Navbar.CurrentPath | components/navbar.tsx:10 | a null or empty pathname reads as `/`; any other is kept |
| Navbar.StartsWith | components/navbar.tsx:55 | the character-by-character test agrees with the prefix relation |
| Navbar.PageNameOf | components/navbar.tsx:54-81 | a non-Home name is chosen only when the path starts with one of that name's prefixes, and Home exactly when no prefix matches; `PageNameByOwnPrefix` gives the converse |
| Navbar.IsActive | components/navbar.tsx:84 | a link is highlighted exactly when its href is a prefix of the pathname |
| Navbar.PrefixesExclusive | components/navbar.tsx:54-80 | no pathname starts with the prefixes of two different page names |
| Navbar.PageNameByOwnPrefix | components/navbar.tsx:54-81 | each page name is chosen exactly when the path starts with one of its own prefixes (`/dashboard`; `/tasks`; `/login` or `/signin`; `/signup` or `/register`), and Home exactly when none matches, so the first match wins and the result is one of the five |
| Navbar.SubPageNamedBySection | components/navbar.tsx:60-61 | `/tasks/completed` is named Tasks |
| Navbar.ActiveLinkMatchesPage | components/navbar.tsx:84 | the Dashboard and Tasks links are highlighted exactly when the page name is Dashboard or Tasks |
| Navbar.AccountActions | components/navbar.tsx:111-125 | logged in shows only Logout. Logged out on exactly `/` shows Sign In and Sign Up. Logged out elsewhere shows only Sign In |
| Navbar.DefaultPathIsHome | components/navbar.tsx:10 | with no pathname the bar names Home and a logged-out visitor sees both account links |

## Left out

- Backend I/O is not modelled: Supabase selects, updates and auth session
  lookups, `fetch`, and realtime channel subscription and removal. Their
  results are method parameters (`Fetch`, `BulkReply`, `DbOutcome`, error
  options), and the order of fetched rows is taken as given. The
  server-side `order` and `eq` filters belong to the database.
- React scheduling is not modelled. This covers effect timing, closure
  capture of the session id in the active page's callbacks, state batching,
  and the `loading`/`bulkLoading` flags. The session user id is an explicit
  parameter of each callback.
- Logging, alerts, timestamps (`completed_at`) and navigation after logout
  are not modelled.
- JavaScript object-key order (`Object.keys`) is not modelled: the grouped
  map is a Dafny `map`, and the missing list ids are a set. The order only
  affects the order of ids in the metadata request. Both pages render
  buckets by walking `lists` and then the `__nolst__` bucket, so it does not
  reach rendering.
- ActiveTasks.ReconciledIds: the reply body is either unparseable or an
  object whose `updated` field is absent or an array of strings. Two cases
  are not representable. A 2xx reply whose JSON body is `null` throws when
  `updated` is read, and leaves the state unchanged. An `updated` value
  that is not an array reaches `includes` with JavaScript's own semantics.
- Prototype keys (`"constructor"`, `"__proto__"`) are not modelled.
  JavaScript would treat a list id equal to one of them as an existing
  bucket. The model treats every string as an ordinary key.
- Request bodies are typed: `ids` is missing, a non-array, or an array of
  strings. A JSON `null` body is folded into `Unreadable`, because reading
  `ids` from it throws.
- Navbar icons, styling, the logout handler and the session listener are
  not modelled. Only whether a session exists enters `AccountActions`.
- The pages' JSX rendering is not modelled, nor are the other pages (home,
  dashboard, add task, create list, auth pages, task detail and edit).
  Neither are the profile endpoint (`app/api/users/route.ts`), the client
  construction in `lib/supabase.ts`, or the test configuration.
- No delete-selected flow exists in these files, so none is modelled.
